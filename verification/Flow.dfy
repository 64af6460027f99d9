/** Lineage of flows between two revisions. */
module Flows {
  import opened Options
  import opened Text
  import opened Sorting

  /** One impacted flow: identity, entry surface, and the evidence lineage looks at. */
  datatype Flow = Flow(id: string, surface: string, nodes: seq<string>, edges: seq<string>, requirements: seq<string>)

  datatype FlowState = Unchanged | Modified | Rewired | Split | Merged | Added | Removed

  datatype Reason = EntrySurface | Requirement | GraphNeighbourhood | NoReason

  datatype FlowMatch = FlowMatch(state: FlowState, base: Option<string>, head: Option<string>, on: Reason,
                                 surface: string)

  // ----- one base flow -----

  /** The head index a base flow is matched to, if any. */
  datatype Link = Link(state: FlowState, head: Option<nat>, on: Reason)

  predicate SharesRequirement(a: Flow, b: Flow) {
    exists r :: r in b.requirements && r in a.requirements
  }

  /** Entries of the left flow that the right flow has too. */
  function NodeOverlap(left: seq<string>, right: seq<string>): nat {
    if left == [] then 0
    else NodeOverlap(left[..|left| - 1], right) + if left[|left| - 1] in right then 1 else 0
  }

  function PairState(b: Flow, h: Flow): FlowState {
    if multiset(b.nodes) != multiset(h.nodes) then Modified
    else if multiset(b.edges) != multiset(h.edges) then Rewired
    else Unchanged
  }

  /** Unused head flows of one surface, in order. */
  function Candidates(head: seq<Flow>, used: set<nat>, surface: string): seq<nat> {
    if head == [] then []
    else
      var n := |head| - 1;
      Candidates(head[..n], used, surface) + if n !in used && head[n].surface == surface then [n] else []
  }

  /** The first unused head flow from an index on that passes a test, or the number of head flows. */
  function FirstFree(head: seq<Flow>, used: set<nat>, test: Flow -> bool, from: nat): (i: nat)
    requires from <= |head|
    ensures from <= i <= |head|
    ensures i < |head| ==> i !in used && test(head[i])
    ensures forall k :: from <= k < i ==> k in used || !test(head[k])
    decreases |head| - from
  {
    if from == |head| || (from !in used && test(head[from])) then from else FirstFree(head, used, test, from + 1)
  }

  function ByRequirement(b: Flow, head: seq<Flow>, used: set<nat>): nat {
    FirstFree(head, used, (h: Flow) => SharesRequirement(b, h), 0)
  }

  function ByNodes(b: Flow, head: seq<Flow>, used: set<nat>): nat {
    FirstFree(head, used, (h: Flow) => NodeOverlap(b.nodes, h.nodes) >= 2, 0)
  }

  lemma {:induction false} CandidatesFit(head: seq<Flow>, used: set<nat>, surface: string)
    ensures forall i :: i in Candidates(head, used, surface) <==>
              0 <= i < |head| && i !in used && head[i].surface == surface
  {
    if head != [] {
      var n := |head| - 1;
      CandidatesFit(head[..n], used, surface);
      assert forall i :: 0 <= i < n ==> head[..n][i] == head[i];
    }
  }

  predicate Rising(c: seq<nat>) {
    forall i, j :: 0 <= i < j < |c| ==> c[i] < c[j]
  }

  lemma RisingGrows(c: seq<nat>, n: nat)
    requires Rising(c) && forall i :: i in c ==> i < n
    ensures Rising(c + [n])
  {
    var more := c + [n];
    forall i, j | 0 <= i < j < |more| ensures more[i] < more[j] {
      assert more[i] == c[i] && c[i] in c;
    }
  }

  lemma {:induction false} CandidatesRise(head: seq<Flow>, used: set<nat>, surface: string)
    ensures Rising(Candidates(head, used, surface))
  {
    if head != [] {
      var n := |head| - 1;
      CandidatesRise(head[..n], used, surface);
      CandidatesFit(head[..n], used, surface);
      RisingGrows(Candidates(head[..n], used, surface), n);
      hide Rising;
    }
  }

  function SplitLinks(c: seq<nat>): seq<Link> {
    seq(|c|, i requires 0 <= i < |c| => Link(Split, Some(c[i]), EntrySurface))
  }

  /** When at most one head flow has the surface: that one, or a shared requirement, or two shared nodes. */
  function SingleLink(b: Flow, head: seq<Flow>, used: set<nat>): Link {
    CandidatesFit(head, used, b.surface);
    var c := Candidates(head, used, b.surface);
    var r, g := ByRequirement(b, head, used), ByNodes(b, head, used);
    if c != [] then assert c[0] in c; Link(PairState(b, head[c[0]]), Some(c[0]), EntrySurface)
    else if r < |head| then Link(PairState(b, head[r]), Some(r), Requirement)
    else if g < |head| then Link(PairState(b, head[g]), Some(g), GraphNeighbourhood)
    else Link(Removed, None, NoReason)
  }

  function LinksFor(b: Flow, head: seq<Flow>, used: set<nat>): seq<Link> {
    var c := Candidates(head, used, b.surface);
    if |c| > 1 then SplitLinks(c) else [SingleLink(b, head, used)]
  }

  function MatchOf(b: Flow, head: seq<Flow>, link: Link): FlowMatch {
    FlowMatch(link.state, Some(b.id), if link.head.Some? && link.head.value < |head| then Some(head[link.head.value].id)
              else None,
              link.on, b.surface)
  }

  function Heads(links: seq<Link>): set<nat> {
    set l | l in links && l.head.Some? :: l.head.value
  }

  function MatchesOf(b: Flow, head: seq<Flow>, links: seq<Link>): seq<FlowMatch> {
    seq(|links|, i requires 0 <= i < |links| => MatchOf(b, head, links[i]))
  }

  // ----- all base flows -----

  datatype Lineage = Lineage(matches: seq<FlowMatch>, used: set<nat>)

  function Lines(base: seq<Flow>, head: seq<Flow>): Lineage {
    if base == [] then Lineage([], {})
    else
      var n := |base| - 1;
      var before := Lines(base[..n], head);
      var links := LinksFor(base[n], head, before.used);
      Lineage(before.matches + MatchesOf(base[n], head, links), before.used + Heads(links))
  }

  /** Head flows no base flow was matched to. */
  function AddedTo(head: seq<Flow>, used: set<nat>): seq<FlowMatch> {
    if head == [] then []
    else
      var n := |head| - 1;
      AddedTo(head[..n], used)
      + if n in used then [] else [FlowMatch(Added, None, Some(head[n].id), NoReason, head[n].surface)]
  }

  /** How many base flows were matched to a head id. */
  function BasedOn(matches: seq<FlowMatch>, head: Option<string>): nat {
    if matches == [] then 0
    else
      var last := matches[|matches| - 1];
      BasedOn(matches[..|matches| - 1], head) + if last.head == head && last.base.Some? then 1 else 0
  }

  function Remarked(m: FlowMatch, all: seq<FlowMatch>): FlowMatch {
    if m.head.Some? && m.base.Some? && BasedOn(all, m.head) > 1 then m.(state := Merged) else m
  }

  function RemarkedAll(matches: seq<FlowMatch>, all: seq<FlowMatch>): seq<FlowMatch> {
    seq(|matches|, i requires 0 <= i < |matches| => Remarked(matches[i], all))
  }

  predicate OptionBefore(a: Option<string>, b: Option<string>) {
    b.Some? && (a.None? || Before(a.value, b.value))
  }

  predicate MatchLess(a: FlowMatch, b: FlowMatch) {
    || Before(a.surface, b.surface)
    || (a.surface == b.surface && OptionBefore(a.base, b.base))
    || (a.surface == b.surface && a.base == b.base && OptionBefore(a.head, b.head))
  }

  function Found(base: seq<Flow>, head: seq<Flow>): seq<FlowMatch> {
    Lines(base, head).matches + AddedTo(head, Lines(base, head).used)
  }

  /** The whole lineage, as the code lists it. */
  function Matched(base: seq<Flow>, head: seq<Flow>): seq<FlowMatch> {
    Sort(RemarkedAll(Found(base, head), Found(base, head)), MatchLess)
  }

  // ----- the operation -----

  /** Links of one base flow: unused head flows, all different, several only as a split. */
  ghost predicate Fit(links: seq<Link>, head: seq<Flow>, used: set<nat>) {
    && links != []
    && (forall l :: l in links ==> FitsOne(l, head, used))
    && (forall i, j :: 0 <= i < j < |links| ==> links[i].head != links[j].head)
    && (forall l :: l in links ==> (l.state.Split? <==> |links| > 1))
  }

  ghost predicate FitsOne(l: Link, head: seq<Flow>, used: set<nat>) {
    && (l.head.Some? ==> l.head.value < |head| && l.head.value !in used)
    && (l.head.None? <==> l.state.Removed?)
    && !l.state.Added? && !l.state.Merged?
  }

  lemma SplitLinksFit(c: seq<nat>, head: seq<Flow>, used: set<nat>)
    requires Rising(c) && |c| > 1 && forall i :: i in c ==> i < |head| && i !in used
    ensures Fit(SplitLinks(c), head, used)
  {
    assert forall i :: 0 <= i < |c| ==> c[i] in c;
  }

  lemma SingleLinkFits(b: Flow, head: seq<Flow>, used: set<nat>)
    ensures FitsOne(SingleLink(b, head, used), head, used) && !SingleLink(b, head, used).state.Split?
  {
    CandidatesFit(head, used, b.surface);
    var c := Candidates(head, used, b.surface);
    assert c != [] ==> c[0] in c;
    hide Candidates, FirstFree, SharesRequirement, NodeOverlap;
  }

  lemma LinksFit(b: Flow, head: seq<Flow>, used: set<nat>)
    ensures Fit(LinksFor(b, head, used), head, used)
  {
    hide Candidates, SingleLink, SplitLinks, FitsOne;
    CandidatesFit(head, used, b.surface);
    CandidatesRise(head, used, b.surface);
    SingleLinkFits(b, head, used);
    var c := Candidates(head, used, b.surface);
    if |c| > 1 { SplitLinksFit(c, head, used); }
  }

  method TakeLinks(b: Flow, head: seq<Flow>, links: seq<Link>, matches: seq<FlowMatch>, used: set<nat>)
    returns (out: seq<FlowMatch>, taken: set<nat>)
    ensures out == matches + MatchesOf(b, head, links) && taken == used + Heads(links)
  {
    out, taken := matches, used;
    for k := 0 to |links|
      invariant out == matches + MatchesOf(b, head, links[..k]) && taken == used + Heads(links[..k])
    {
      HeadsGrow(links, k);
      assert MatchesOf(b, head, links[..k + 1]) == MatchesOf(b, head, links[..k]) + [MatchOf(b, head, links[k])];
      if links[k].head.Some? {
        taken := taken + {links[k].head.value};
      }
      out := out + [MatchOf(b, head, links[k])];
    }
    assert links[..|links|] == links;
  }

  lemma HeadsGrow(links: seq<Link>, k: nat)
    requires k < |links|
    ensures Heads(links[..k + 1]) == Heads(links[..k]) + if links[k].head.Some? then {links[k].head.value} else {}
  {
    assert links[..k + 1] == links[..k] + [links[k]];
    assert forall l :: l in links[..k + 1] <==> l in links[..k] || l == links[k];
  }

  /** Marks as merged every match to a head id that several base flows were matched to. */
  method MarkMerged(found: seq<FlowMatch>) returns (out: seq<FlowMatch>)
    ensures out == RemarkedAll(found, found)
  {
    hide BasedOn;
    var merged: set<string> := {};
    for i := 0 to |found|
      invariant forall id :: id in merged ==> BasedOn(found, Some(id)) > 1
      invariant forall k :: 0 <= k < i && found[k].head.Some? && BasedOn(found, found[k].head) > 1 ==>
                  found[k].head.value in merged
    {
      if found[i].head.Some? && BasedOn(found, found[i].head) > 1 {
        merged := merged + {found[i].head.value};
      }
    }
    out := found;
    for i := 0 to |found|
      invariant |out| == |found|
      invariant forall k :: 0 <= k < |found| ==> out[k] == if k < i then Remarked(found[k], found) else found[k]
    {
      if out[i].head.Some? && out[i].head.value in merged && out[i].base.Some? {
        out := out[i := out[i].(state := Merged)];
      }
    }
  }

  method MatchFlows(base: seq<Flow>, head: seq<Flow>) returns (out: seq<FlowMatch>)
    ensures out == Matched(base, head)
  {
    hide LinksFor, MatchesOf, Heads;
    var used: set<nat>;
    out, used := [], {};
    for i := 0 to |base|
      invariant Lineage(out, used) == Lines(base[..i], head)
    {
      assert base[..i + 1][..i] == base[..i];
      out, used := TakeLinks(base[i], head, LinksFor(base[i], head, used), out, used);
    }
    assert base[..|base|] == base;
    ghost var matches := out;
    for i := 0 to |head|
      invariant out == matches + AddedTo(head[..i], used)
    {
      assert head[..i + 1][..i] == head[..i];
      if i !in used {
        out := out + [FlowMatch(Added, None, Some(head[i].id), NoReason, head[i].surface)];
      }
    }
    assert head[..|head|] == head;
    out := MarkMerged(out);
    out := Sort(out, MatchLess);
  }
}
