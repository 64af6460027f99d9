/** What every match of a lineage rests on, in the fields of the two flows. */
module FlowEvidence {
  import opened Options
  import opened Text
  import opened Sorting
  import opened Flows
  import opened FlowLaws

  // ----- the evidence of one pair -----

  ghost predicate ShareRequirement(b: Flow, h: Flow) {
    exists i, j :: 0 <= i < |b.requirements| && 0 <= j < |h.requirements| && b.requirements[i] == h.requirements[j]
  }

  /** The places of the left list whose entry the right list has too. */
  ghost function Shared(left: seq<string>, right: seq<string>): set<nat> {
    set i: nat | i < |left| && left[i] in right
  }

  lemma {:induction false} OverlapIsCounted(left: seq<string>, right: seq<string>)
    ensures NodeOverlap(left, right) == |Shared(left, right)|
  {
    if left != [] {
      var n := |left| - 1;
      OverlapIsCounted(left[..n], right);
      assert Shared(left, right) == Shared(left[..n], right) + if left[n] in right then {n as nat} else {};
    }
  }

  lemma RequirementIsShared(b: Flow, h: Flow)
    ensures SharesRequirement(b, h) <==> ShareRequirement(b, h)
  {
    if r :| r in h.requirements && r in b.requirements {
      var i :| 0 <= i < |b.requirements| && b.requirements[i] == r;
      var j :| 0 <= j < |h.requirements| && h.requirements[j] == r;
      assert b.requirements[i] == h.requirements[j];
    }
    if ShareRequirement(b, h) {
      var i, j :| 0 <= i < |b.requirements| && 0 <= j < |h.requirements| && b.requirements[i] == h.requirements[j];
      assert h.requirements[j] in h.requirements && h.requirements[j] in b.requirements;
    }
  }

  /** The same entries, each as often. */
  ghost predicate SameEntries(a: seq<string>, b: seq<string>) {
    forall x :: multiset(a)[x] == multiset(b)[x]
  }

  /** The states of a pair, by its nodes first and its edges second. */
  lemma PairStateExactlyWhen(b: Flow, h: Flow)
    ensures PairState(b, h).Unchanged? <==> SameEntries(b.nodes, h.nodes) && SameEntries(b.edges, h.edges)
    ensures PairState(b, h).Rewired? <==> SameEntries(b.nodes, h.nodes) && !SameEntries(b.edges, h.edges)
    ensures PairState(b, h).Modified? <==> !SameEntries(b.nodes, h.nodes)
  {
    assert SameEntries(b.nodes, h.nodes) <==> multiset(b.nodes) == multiset(h.nodes);
    assert SameEntries(b.edges, h.edges) <==> multiset(b.edges) == multiset(h.edges);
  }

  // ----- the links of one base flow -----

  ghost predicate Free(head: seq<Flow>, used: set<nat>, i: nat) {
    i < |head| && i !in used
  }

  /** The reason of a link holds, no better one was free, and no earlier head flow offers it. */
  ghost predicate IsBestLink(l: Link, b: Flow, head: seq<Flow>, used: set<nat>) {
    match l.on
    case EntrySurface => l.head.Some? && Free(head, used, l.head.value) && head[l.head.value].surface == b.surface
    case Requirement =>
      && l.head.Some? && Free(head, used, l.head.value) && ShareRequirement(b, head[l.head.value])
      && (forall i: nat :: Free(head, used, i) ==> head[i].surface != b.surface)
      && (forall i: nat :: Free(head, used, i) && i < l.head.value ==> !ShareRequirement(b, head[i]))
    case GraphNeighbourhood =>
      && l.head.Some? && Free(head, used, l.head.value) && |Shared(b.nodes, head[l.head.value].nodes)| >= 2
      && (forall i: nat :: Free(head, used, i) ==> head[i].surface != b.surface && !ShareRequirement(b, head[i]))
      && (forall i: nat :: Free(head, used, i) && i < l.head.value ==> |Shared(b.nodes, head[i].nodes)| < 2)
    case NoReason =>
      && l.head.None? && l.state.Removed?
      && (forall i: nat :: Free(head, used, i) ==>
          head[i].surface != b.surface && !ShareRequirement(b, head[i]) && |Shared(b.nodes, head[i].nodes)| < 2)
  }

  lemma SingleLinkIsBest(b: Flow, head: seq<Flow>, used: set<nat>)
    ensures IsBestLink(SingleLink(b, head, used), b, head, used)
    ensures var l := SingleLink(b, head, used);
            l.head.Some? ==> l.head.value < |head| && l.state == PairState(b, head[l.head.value])
  {
    CandidatesFit(head, used, b.surface);
    var c := Candidates(head, used, b.surface);
    assert c != [] ==> c[0] in c;
    forall i | 0 <= i < |head|
      ensures SharesRequirement(b, head[i]) <==> ShareRequirement(b, head[i])
      ensures NodeOverlap(b.nodes, head[i].nodes) == |Shared(b.nodes, head[i].nodes)|
    {
      RequirementIsShared(b, head[i]);
      OverlapIsCounted(b.nodes, head[i].nodes);
    }
    hide Candidates, SharesRequirement, ShareRequirement, NodeOverlap, Shared, PairState, FirstFree;
    assert forall i: nat :: Free(head, used, i) && head[i].surface == b.surface ==> i in c;
  }

  /**
   * Several links are exactly the free head flows of the surface, all of them splits; a single link is
   * the best one.
   */
  lemma LinksAreBest(b: Flow, head: seq<Flow>, used: set<nat>, l: Link)
    requires l in LinksFor(b, head, used)
    ensures IsBestLink(l, b, head, used)
    ensures l.head.Some? ==> l.head.value < |head| && (l.state.Split? || l.state == PairState(b, head[l.head.value]))
    ensures l.state.Split? ==> l.on.EntrySurface?
  {
    CandidatesFit(head, used, b.surface);
    SingleLinkIsBest(b, head, used);
    SingleLinkFits(b, head, used);
    var c := Candidates(head, used, b.surface);
    hide Candidates, SingleLink, ShareRequirement, Shared, PairState;
    if |c| > 1 {
      var j :| 0 <= j < |c| && SplitLinks(c)[j] == l;
      assert c[j] in c;
    }
  }

  // ----- every match of the lineage -----

  /** The reason given for a pair holds of it, and its state tells how its nodes and edges compare. */
  ghost predicate Explains(m: FlowMatch, b: Flow, h: Flow) {
    && m.base == Some(b.id) && m.head == Some(h.id) && m.surface == b.surface
    && (match m.on
        case EntrySurface => b.surface == h.surface
        case Requirement => ShareRequirement(b, h)
        case GraphNeighbourhood => |Shared(b.nodes, h.nodes)| >= 2
        case NoReason => false)
    && (match m.state
        case Split => m.on.EntrySurface?
        case Unchanged => SameEntries(b.nodes, h.nodes) && SameEntries(b.edges, h.edges)
        case Rewired => SameEntries(b.nodes, h.nodes) && !SameEntries(b.edges, h.edges)
        case Modified => !SameEntries(b.nodes, h.nodes)
        case _ => false)
  }

  ghost predicate Explained(m: FlowMatch, base: seq<Flow>, head: seq<Flow>) {
    || (exists b, h :: b in base && h in head && Explains(m, b, h))
    || (exists b :: b in base && m == FlowMatch(Removed, Some(b.id), None, NoReason, b.surface))
    || (exists h :: h in head && m == FlowMatch(Added, None, Some(h.id), NoReason, h.surface))
  }

  lemma LinkIsExplained(b: Flow, head: seq<Flow>, used: set<nat>, l: Link)
    requires l in LinksFor(b, head, used)
    ensures if l.head.None? then MatchOf(b, head, l) == FlowMatch(Removed, Some(b.id), None, NoReason, b.surface)
            else l.head.value < |head| && Explains(MatchOf(b, head, l), b, head[l.head.value])
  {
    LinksAreBest(b, head, used, l);
    LinksFit(b, head, used);
    assert FitsOne(l, head, used);
    if l.head.Some? {
      PairStateExactlyWhen(b, head[l.head.value]);
    }
    hide LinksFor, PairState, ShareRequirement, Shared, SameEntries;
  }

  lemma {:induction false} LinesAreExplained(base: seq<Flow>, head: seq<Flow>, m: FlowMatch)
    requires m in Lines(base, head).matches
    ensures Explained(m, base, head)
  {
    hide Explains, LinksFor, MatchOf;
    var n := |base| - 1;
    var before := Lines(base[..n], head);
    if m in before.matches {
      LinesAreExplained(base[..n], head, m);
      assert forall b :: b in base[..n] ==> b in base;
    } else {
      var links := LinksFor(base[n], head, before.used);
      var j :| 0 <= j < |links| && MatchesOf(base[n], head, links)[j] == m;
      LinkIsExplained(base[n], head, before.used, links[j]);
      assert base[n] in base;
      if links[j].head.Some? {
        assert head[links[j].head.value] in head;
      }
    }
  }

  lemma {:induction false} AddedAreExplained(base: seq<Flow>, head: seq<Flow>, used: set<nat>, m: FlowMatch)
    requires m in AddedTo(head, used)
    ensures exists h :: h in head && m == FlowMatch(Added, None, Some(h.id), NoReason, h.surface)
  {
    var n := |head| - 1;
    if m in AddedTo(head[..n], used) {
      AddedAreExplained(base, head[..n], used, m);
    } else {
      assert head[n] in head;
    }
  }

  /** With distinct head ids every match of the output is explained by the fields of the flows it names. */
  lemma MatchesAreExplained(base: seq<Flow>, head: seq<Flow>, m: FlowMatch)
    requires DistinctIds(head) && m in Matched(base, head)
    ensures Explained(m, base, head)
  {
    NothingIsMerged(base, head);
    SameElements(Matched(base, head), Found(base, head));
    hide Explained, Lines, AddedTo;
    if m in Lines(base, head).matches {
      LinesAreExplained(base, head, m);
    } else {
      AddedAreExplained(base, head, Lines(base, head).used, m);
      AddedExplain(base, head, m);
    }
  }

  lemma AddedExplain(base: seq<Flow>, head: seq<Flow>, m: FlowMatch)
    requires exists h :: h in head && m == FlowMatch(Added, None, Some(h.id), NoReason, h.surface)
    ensures Explained(m, base, head)
  {
    hide Explains;
  }

  // ----- merged matches -----

  /** Two different matches link a base flow to this head id. */
  ghost predicate IsShared(matches: seq<FlowMatch>, head: Option<string>) {
    exists i, j :: 0 <= i < j < |matches| && matches[i].base.Some? && matches[j].base.Some?
                   && matches[i].head == head && matches[j].head == head
  }

  lemma {:induction false} BasedOnCounts(matches: seq<FlowMatch>, head: Option<string>)
    ensures BasedOn(matches, head) > 0 <==> exists m :: m in matches && m.base.Some? && m.head == head
    ensures BasedOn(matches, head) > 1 <==> IsShared(matches, head)
  {
    if matches != [] {
      var n := |matches| - 1;
      var front, last := matches[..n], matches[n];
      BasedOnCounts(front, head);
      assert matches == front + [last];
      LastIsShared(front, last, head);
      hide IsShared;
    }
  }

  lemma LastIsShared(front: seq<FlowMatch>, last: FlowMatch, head: Option<string>)
    ensures IsShared(front + [last], head) <==>
              || IsShared(front, head)
              || (last.base.Some? && last.head == head && exists m :: m in front && m.base.Some? && m.head == head)
  {
    var all, n := front + [last], |front|;
    if IsShared(front, head) {
      var i, j :| 0 <= i < j < n && front[i].base.Some? && front[j].base.Some?
                  && front[i].head == head && front[j].head == head;
      assert all[i] == front[i] && all[j] == front[j];
    }
    if last.base.Some? && last.head == head && exists m :: m in front && m.base.Some? && m.head == head {
      var m :| m in front && m.base.Some? && m.head == head;
      var i :| 0 <= i < n && front[i] == m;
      assert all[i] == m && all[n] == last;
    }
    if IsShared(all, head) {
      var i, j :| 0 <= i < j < |all| && all[i].base.Some? && all[j].base.Some?
                  && all[i].head == head && all[j].head == head;
      assert all[i] == front[i] && front[i] in front;
      assert j < n ==> all[j] == front[j];
    }
  }

  /** A match becomes merged exactly when it links a base flow to a head id another match links one to. */
  lemma MergedExactlyWhen(base: seq<Flow>, head: seq<Flow>, i: nat)
    requires i < |Found(base, head)|
    ensures var found := Found(base, head); var marked := RemarkedAll(found, found);
            && multiset(Matched(base, head)) == multiset(marked)
            && marked[i] == found[i].(state := if found[i].base.Some? && found[i].head.Some?
                                                  && IsShared(found, found[i].head) then Merged else found[i].state)
  {
    var found := Found(base, head);
    BasedOnCounts(found, found[i].head);
    hide IsShared, Found, MatchLess, BasedOn;
  }

  /** Nothing, or not after the other. */
  predicate NotAfter(a: Option<string>, b: Option<string>) {
    a.None? || (b.Some? && !Before(b.value, a.value))
  }

  /** The output is in order of surface, then of base id, then of head id; an absent id comes first. */
  lemma MatchesAreOrdered(base: seq<Flow>, head: seq<Flow>, i: nat, j: nat)
    requires i < j < |Matched(base, head)|
    ensures var a, b := Matched(base, head)[i], Matched(base, head)[j];
            && !Before(b.surface, a.surface)
            && (a.surface == b.surface ==> NotAfter(a.base, b.base))
            && (a.surface == b.surface && a.base == b.base ==> NotAfter(a.head, b.head))
  {
    MatchLessIsStrict();
    SortSorts(RemarkedAll(Found(base, head), Found(base, head)), MatchLess);
    hide Before, Found, RemarkedAll;
  }

  lemma OptionBeforeIsStrict()
    ensures StrictOrder(OptionBefore)
  {
    BeforeIsStrictOrder();
    hide Before;
    assert forall a, b, c :: OptionBefore(a, b) && OptionBefore(b, c) ==> OptionBefore(a, c);
    forall a, b, c | OptionBefore(a, c) && !OptionBefore(a, b) ensures OptionBefore(b, c) {
      if b.Some? && a.value != b.value {
        assert Before(b.value, a.value);
      }
    }
  }

  lemma OptionBeforeIsTotal(a: Option<string>, b: Option<string>)
    ensures a == b || OptionBefore(a, b) || OptionBefore(b, a)
  {
    if a.Some? && b.Some? {
      BeforeTotal(a.value, b.value);
    }
  }

  lemma MatchLessIsStrict()
    ensures StrictOrder(MatchLess)
  {
    BeforeIsStrictOrder();
    OptionBeforeIsStrict();
    hide Before, OptionBefore;
    assert forall a, b, c :: MatchLess(a, b) && MatchLess(b, c) ==> MatchLess(a, c);
    forall a, b, c | MatchLess(a, c) && !MatchLess(a, b) ensures MatchLess(b, c) {
      OptionBeforeIsTotal(a.base, b.base);
      OptionBeforeIsTotal(a.head, b.head);
    }
  }
}
