/** When a base flow gets the head flow that has its surface. */
module FlowPreference {
  import opened Options
  import opened Sorting
  import opened Flows

  /** The head flows taken before base flow k. */
  function UsedBefore(base: seq<Flow>, head: seq<Flow>, k: nat): set<nat>
    requires k <= |base|
  {
    Lines(base[..k], head).used
  }

  /** What base flow k is linked to. */
  function LinksAt(base: seq<Flow>, head: seq<Flow>, k: nat): seq<Link>
    requires k < |base|
  {
    LinksFor(base[k], head, UsedBefore(base, head, k))
  }

  ghost predicate LinkedTo(base: seq<Flow>, head: seq<Flow>, k: nat, i: nat)
    requires k < |base|
  {
    exists l :: l in LinksAt(base, head, k) && l.head == Some(i)
  }

  ghost predicate LinkedBySurface(base: seq<Flow>, head: seq<Flow>, k: nat, i: nat)
    requires k < |base|
  {
    exists l :: l in LinksAt(base, head, k) && l.head == Some(i) && l.on.EntrySurface?
  }

  /** Some reason to match the two flows. */
  predicate Related(b: Flow, h: Flow) {
    b.surface == h.surface || SharesRequirement(b, h) || NodeOverlap(b.nodes, h.nodes) >= 2
  }

  // ----- one base flow -----

  lemma SplitReaches(c: seq<nat>, i: nat)
    ensures (exists l :: l in SplitLinks(c) && l.head == Some(i)) <==> i in c
    ensures forall l :: l in SplitLinks(c) ==> l.on.EntrySurface? && l.head.Some?
  {
    var links := SplitLinks(c);
    if i in c {
      var j :| 0 <= j < |c| && c[j] == i;
      assert links[j] in links;
    }
  }

  /** The surface decides first: all free head flows of it, and only those, when there is one. */
  lemma SurfaceComesFirst(b: Flow, head: seq<Flow>, used: set<nat>, i: nat)
    ensures (exists l :: l in LinksFor(b, head, used) && l.head == Some(i) && l.on.EntrySurface?)
       <==> i < |head| && head[i].surface == b.surface && i !in used
    ensures Candidates(head, used, b.surface) != [] ==> forall l :: l in LinksFor(b, head, used) ==> l.on.EntrySurface?
  {
    CandidatesFit(head, used, b.surface);
    var c := Candidates(head, used, b.surface);
    hide Candidates, FirstFree, SharesRequirement, NodeOverlap, PairState;
    if |c| > 1 {
      SplitReaches(c, i);
    } else {
      assert c != [] ==> c[0] in c;
      assert SingleLink(b, head, used) in [SingleLink(b, head, used)];
    }
  }

  /** A base flow only takes head flows it is related to. */
  lemma TakesRelated(b: Flow, head: seq<Flow>, used: set<nat>, l: Link)
    requires l in LinksFor(b, head, used) && l.head.Some?
    ensures l.head.value < |head| && l.head.value !in used && Related(b, head[l.head.value])
  {
    CandidatesFit(head, used, b.surface);
    var c := Candidates(head, used, b.surface);
    hide Candidates, SharesRequirement, NodeOverlap, PairState;
    if |c| > 1 {
      SplitReaches(c, l.head.value);
    } else {
      assert c != [] ==> c[0] in c;
    }
  }

  /** A free head flow is taken when it is the only one the base flow is related to. */
  lemma TakesItsOnlyRelative(b: Flow, head: seq<Flow>, used: set<nat>, i: nat)
    requires i < |head| && i !in used && Related(b, head[i])
    requires forall j :: 0 <= j < |head| && j != i ==> !Related(b, head[j])
    ensures exists l :: l in LinksFor(b, head, used) && l.head == Some(i)
  {
    CandidatesFit(head, used, b.surface);
    CandidatesRise(head, used, b.surface);
    var c := Candidates(head, used, b.surface);
    hide Candidates, SharesRequirement, NodeOverlap, PairState;
    TwoDiffer(c);
    assert |c| <= 1;
    assert c != [] ==> c[0] in c;
    assert LinksFor(b, head, used) == [SingleLink(b, head, used)];
    var r, g := ByRequirement(b, head, used), ByNodes(b, head, used);
    assert r < |head| ==> r == i;
    assert g < |head| ==> g == i;
    assert SingleLink(b, head, used).head == Some(i);
    assert SingleLink(b, head, used) in LinksFor(b, head, used);
  }

  lemma TwoDiffer(c: seq<nat>)
    requires Rising(c)
    ensures |c| > 1 ==> exists x, y :: x in c && y in c && x != y
  {
    if |c| > 1 {
      assert c[0] in c && c[1] in c && c[0] != c[1];
    }
  }

  // ----- all base flows before -----

  lemma UsedByOneMore(base: seq<Flow>, head: seq<Flow>, k: nat)
    requires k < |base|
    ensures UsedBefore(base, head, k + 1) == UsedBefore(base, head, k) + Heads(LinksAt(base, head, k))
  {
    hide LinksFor, MatchesOf, Heads;
    assert base[..k + 1][..k] == base[..k];
  }

  /** The head flows taken before k are those some earlier base flow is linked to. */
  lemma {:induction false} UsedIsTaken(base: seq<Flow>, head: seq<Flow>, k: nat, i: nat)
    requires k <= |base|
    ensures i in UsedBefore(base, head, k) <==> exists j :: 0 <= j < k && LinkedTo(base, head, j, i)
  {
    hide LinksAt;
    if k == 0 {
      assert base[..0] == [];
    } else {
      UsedIsTaken(base, head, k - 1, i);
      UsedByOneMore(base, head, k - 1);
      assert i in Heads(LinksAt(base, head, k - 1)) <==> LinkedTo(base, head, k - 1, i);
      hide UsedBefore;
    }
  }

  /** A base flow is matched by its surface to exactly the head flows of that surface that no earlier base flow took. */
  lemma SurfaceIsMatchedExactlyWhen(base: seq<Flow>, head: seq<Flow>, k: nat, i: nat)
    requires k < |base|
    ensures LinkedBySurface(base, head, k, i) <==>
              && i < |head| && head[i].surface == base[k].surface
              && !exists j :: 0 <= j < k && LinkedTo(base, head, j, i)
  {
    hide LinksFor, UsedBefore;
    SurfaceComesFirst(base[k], head, UsedBefore(base, head, k), i);
    UsedIsTaken(base, head, k, i);
  }

  lemma LinkedAreRelated(base: seq<Flow>, head: seq<Flow>, k: nat, i: nat)
    requires k < |base| && LinkedTo(base, head, k, i)
    ensures i < |head| && Related(base[k], head[i]) && i !in UsedBefore(base, head, k)
  {
    hide LinksFor, UsedBefore, Related;
    var l :| l in LinksAt(base, head, k) && l.head == Some(i);
    TakesRelated(base[k], head, UsedBefore(base, head, k), l);
  }

  /**
   * No earlier base flow has that surface, shares a requirement, or shares two nodes with the head flow:
   * it is kept.
   */
  lemma UnrelatedFlowsLeaveTheSurface(base: seq<Flow>, head: seq<Flow>, k: nat, i: nat)
    requires k < |base| && i < |head| && head[i].surface == base[k].surface
    requires forall j :: 0 <= j < k ==> !Related(base[j], head[i])
    ensures LinkedBySurface(base, head, k, i)
  {
    hide Related, LinkedTo, LinkedBySurface;
    SurfaceIsMatchedExactlyWhen(base, head, k, i);
    forall j | 0 <= j < k ensures !LinkedTo(base, head, j, i) {
      if LinkedTo(base, head, j, i) {
        LinkedAreRelated(base, head, j, i);
      }
    }
  }

  /**
   * When the earlier base flows that are related to a head flow have no other relative on head, its
   * surface is matched exactly when there is no such base flow.
   */
  lemma SurfaceIsKeptExactlyWhen(base: seq<Flow>, head: seq<Flow>, k: nat, i: nat)
    requires k < |base| && i < |head| && head[i].surface == base[k].surface
    requires forall j, n :: 0 <= j < k && Related(base[j], head[i]) && 0 <= n < |head| && n != i ==>
               !Related(base[j], head[n])
    ensures LinkedBySurface(base, head, k, i) <==> forall j :: 0 <= j < k ==> !Related(base[j], head[i])
  {
    hide Related, LinkedTo, LinkedBySurface, LinksFor, UsedBefore;
    if forall j :: 0 <= j < k ==> !Related(base[j], head[i]) {
      UnrelatedFlowsLeaveTheSurface(base, head, k, i);
    } else {
      var j :| 0 <= j < k && Related(base[j], head[i]);
      RelativeIsTaken(base, head, j, i);
      SurfaceIsMatchedExactlyWhen(base, head, k, i);
    }
  }

  /** The only relative of an earlier base flow is taken by it or by one before it. */
  lemma RelativeIsTaken(base: seq<Flow>, head: seq<Flow>, j: nat, i: nat)
    requires j < |base| && i < |head| && Related(base[j], head[i])
    requires forall n :: 0 <= n < |head| && n != i ==> !Related(base[j], head[n])
    ensures exists m :: 0 <= m <= j && LinkedTo(base, head, m, i)
  {
    hide Related, LinksFor, UsedBefore;
    UsedIsTaken(base, head, j, i);
    if i !in UsedBefore(base, head, j) {
      TakesItsOnlyRelative(base[j], head, UsedBefore(base, head, j), i);
      assert LinkedTo(base, head, j, i);
    }
  }

  // ----- in the lineage itself -----

  lemma {:induction false} EarlierLinesStay(base: seq<Flow>, head: seq<Flow>, k: nat)
    requires k <= |base|
    ensures Lines(base[..k], head).matches <= Lines(base, head).matches
    decreases |base|
  {
    hide LinksFor, MatchesOf, Heads;
    if k < |base| {
      var n := |base| - 1;
      EarlierLinesStay(base[..n], head, k);
      assert base[..n][..k] == base[..k];
    } else {
      assert base[..k] == base;
    }
  }

  /** The matches of base flow k stand in the lineage, right after those of the flows before it. */
  lemma LinksAreReported(base: seq<Flow>, head: seq<Flow>, k: nat)
    requires k < |base|
    ensures Lines(base[..k], head).matches + MatchesOf(base[k], head, LinksAt(base, head, k)) <= Found(base, head)
  {
    hide LinksFor, MatchesOf, Heads, AddedTo;
    EarlierLinesStay(base, head, k + 1);
    assert base[..k + 1][..k] == base[..k];
  }
}
