/** Reading file paths: which ones are tests and which are production sources. */
module SourcePaths {
  import opened Lcov
  import opened Strings

  /** The text before the first separator. */
  function UpTo(s: string, separator: char): string {
    if s == [] || s[0] == separator then [] else [s[0]] + UpTo(s[1..], separator)
  }

  /** The text after the last slash. */
  function FileName(s: string): string {
    if s == [] || s[|s| - 1] == '/' then [] else FileName(s[..|s| - 1]) + [s[|s| - 1]]
  }

  predicate IsTestSourcePath(path: string) {
    var lower := Lower(Slashes(path));
    var file := FileName(lower);
    || Contains(lower, "/tests/")
    || "tests/" <= lower
    || Contains(lower, "/__tests__/")
    || EndsWith(file, "_test.go")
    || "test_" <= file
    || Contains(file, ".test.")
    || Contains(file, ".spec.")
    || Contains(file, ".stories.")
  }

  predicate IsProductionSource(path: string) {
    && !IsTestSourcePath(path)
    && var lower := Lower(path);
       || EndsWith(lower, ".ts") || EndsWith(lower, ".tsx") || EndsWith(lower, ".js") || EndsWith(lower, ".jsx")
       || EndsWith(lower, ".mjs") || EndsWith(lower, ".cjs") || EndsWith(lower, ".go") || EndsWith(lower, ".rs")
  }
}

/** Walks of the code graph: what a binding can reach, and how far away it is. */
module Walks {
  type Id = string

  /** The files of the known nodes and the successors of every edge source, judged once per node. */
  datatype Sites = Sites(tests: set<Id>, production: set<Id>, targets: map<Id, set<Id>>) {
    ghost predicate Valid() {
      tests !! production
    }

    function Next(v: Id): set<Id> {
      if v in targets then targets[v] else {}
    }
  }

  /** A directed walk from a starting node that never enters a test node. */
  ghost predicate Walk(m: Sites, starts: set<Id>, p: seq<Id>) {
    && p != []
    && p[0] in starts
    && (forall i :: 0 < i < |p| ==> p[i] in m.Next(p[i - 1]) && p[i] !in m.tests)
  }

  function Last(p: seq<Id>): Id
    requires p != []
  {
    p[|p| - 1]
  }

  ghost predicate Reachable(m: Sites, starts: set<Id>, v: Id) {
    exists p :: Walk(m, starts, p) && Last(p) == v
  }

  ghost predicate IsShortest(m: Sites, starts: set<Id>, p: seq<Id>)
    requires p != []
  {
    forall q :: Walk(m, starts, q) && Last(q) == Last(p) ==> |p| <= |q|
  }

  /** Some walk of at most k edges ends in v. */
  ghost predicate Near(m: Sites, starts: set<Id>, v: Id, k: nat)
    decreases k
  {
    || v in starts
    || (k > 0 && v !in m.tests && exists u :: v in m.Next(u) && Near(m, starts, u, k - 1))
  }

  lemma {:induction false} NearGrows(m: Sites, starts: set<Id>, v: Id, k: nat, n: nat)
    requires Near(m, starts, v, k) && k <= n
    ensures Near(m, starts, v, n)
    decreases k
  {
    if v !in starts {
      var u :| v in m.Next(u) && Near(m, starts, u, k - 1);
      NearGrows(m, starts, u, k - 1, n - 1);
    }
  }

  lemma {:induction false} WalkIsNear(m: Sites, starts: set<Id>, p: seq<Id>)
    requires Walk(m, starts, p)
    ensures Near(m, starts, Last(p), |p| - 1)
    decreases |p|
  {
    if |p| > 1 {
      var shorter := p[..|p| - 1];
      WalkIsNear(m, starts, shorter);
      var i := |p| - 1;
      assert p[i] in m.Next(p[i - 1]) && Last(shorter) == p[i - 1];
    }
  }

  lemma {:induction false} NearHasWalk(m: Sites, starts: set<Id>, v: Id, k: nat) returns (p: seq<Id>)
    requires Near(m, starts, v, k)
    ensures Walk(m, starts, p) && Last(p) == v && |p| <= k + 1
    decreases k
  {
    if v in starts {
      p := [v];
    } else {
      var u :| v in m.Next(u) && Near(m, starts, u, k - 1);
      var q := NearHasWalk(m, starts, u, k - 1);
      p := q + [v];
      forall i | 0 < i < |p| ensures p[i] in m.Next(p[i - 1]) && p[i] !in m.tests {
        if i < |q| {
          assert p[i] == q[i] && p[i - 1] == q[i - 1];
        }
      }
    }
  }

  lemma NearIsReachable(m: Sites, starts: set<Id>, v: Id, k: nat)
    requires Near(m, starts, v, k)
    ensures Reachable(m, starts, v)
  {
    var p := NearHasWalk(m, starts, v, k);
  }

  /** A walk whose end is not met any earlier. */
  ghost predicate Exact(m: Sites, starts: set<Id>, p: seq<Id>) {
    && Walk(m, starts, p)
    && (|p| > 1 ==> !Near(m, starts, Last(p), |p| - 2))
  }

  lemma ExactIsShortest(m: Sites, starts: set<Id>, p: seq<Id>)
    requires Exact(m, starts, p)
    ensures IsShortest(m, starts, p)
  {
    forall q | Walk(m, starts, q) && Last(q) == Last(p) ensures |p| <= |q| {
      WalkIsNear(m, starts, q);
      if |q| < |p| {
        NearGrows(m, starts, Last(p), |q| - 1, |p| - 2);
      }
    }
  }

  lemma ExactGrows(m: Sites, starts: set<Id>, p: seq<Id>, v: Id)
    requires Walk(m, starts, p) && v in m.Next(Last(p)) && v !in m.tests
    requires !Near(m, starts, v, |p| - 1)
    ensures Exact(m, starts, p + [v])
  {
    var q := p + [v];
    assert q[0] == p[0];
    forall i | 0 < i < |q| ensures q[i] in m.Next(q[i - 1]) && q[i] !in m.tests {
      if i < |p| {
        assert q[i] == p[i] && q[i - 1] == p[i - 1];
      }
    }
  }
}

/** Bounded breadth-first reach from a declared binding to production nodes. */
module Reach {
  import opened Options
  import opened Lcov
  import opened SourcePaths
  import opened Walks

  const MAX_REACH_DEPTH: nat := 4
  const MAX_REACH_NODES: nat := 64
  const MAX_EVIDENCE_PATHS: nat := 32

  datatype Visit = Visit(id: Id, trail: seq<Id>, depth: nat)

  datatype Progress = Progress(seen: set<Id>, found: set<Id>, paths: seq<seq<Id>>, truncated: bool, queue: seq<Visit>)

  ghost predicate VisitSound(m: Sites, starts: set<Id>, v: Visit) {
    && Exact(m, starts, v.trail)
    && |v.trail| == v.depth + 1
    && Last(v.trail) == v.id
    && v.depth < MAX_REACH_DEPTH
  }

  /** The queue holds seen nodes of two neighbouring levels, nearer ones first. */
  ghost predicate QueueSound(m: Sites, starts: set<Id>, w: Progress, level: nat) {
    && (forall i :: 0 <= i < |w.queue| ==> VisitSound(m, starts, w.queue[i]) && w.queue[i].id in w.seen)
    && (forall i :: 0 <= i < |w.queue| ==> level <= w.queue[i].depth <= level + 1)
    && (forall i, j :: 0 <= i < j < |w.queue| ==> w.queue[i].depth <= w.queue[j].depth)
  }

  ghost predicate FoundSound(m: Sites, starts: set<Id>, w: Progress) {
    && |w.found| <= MAX_REACH_NODES
    && (forall v :: v in w.found ==>
        v in m.production && v in w.seen && v !in starts && Near(m, starts, v, MAX_REACH_DEPTH))
  }

  ghost predicate Evidenced(paths: seq<seq<Id>>, v: Id) {
    exists i :: 0 <= i < |paths| && paths[i] != [] && Last(paths[i]) == v
  }

  ghost predicate DistinctEnds(paths: seq<seq<Id>>) {
    forall i, j :: 0 <= i < j < |paths| ==> paths[i] != [] && paths[j] != [] && Last(paths[i]) != Last(paths[j])
  }

  ghost predicate PathSound(m: Sites, starts: set<Id>, found: set<Id>, p: seq<Id>) {
    && Exact(m, starts, p)
    && 2 <= |p| <= MAX_REACH_DEPTH + 1
    && Last(p) in found
  }

  ghost predicate PathsSound(m: Sites, starts: set<Id>, w: Progress) {
    && |w.paths| <= MAX_EVIDENCE_PATHS
    && (forall p :: p in w.paths ==> PathSound(m, starts, w.found, p))
    && DistinctEnds(w.paths)
    && (!w.truncated ==> forall v :: v in w.found ==> Evidenced(w.paths, v))
  }

  ghost predicate Queued(w: Progress, v: Id) {
    exists i :: 0 <= i < |w.queue| && w.queue[i].id == v
  }

  /** A node is waiting, or has shown all its successors, or lies at the depth ceiling. */
  ghost predicate Settled(m: Sites, starts: set<Id>, w: Progress, v: Id) {
    || Queued(w, v)
    || m.Next(v) <= w.seen
    || (!Near(m, starts, v, MAX_REACH_DEPTH - 1) && (m.Next(v) != {} ==> w.truncated))
  }

  ghost predicate AllSettled(m: Sites, starts: set<Id>, w: Progress, busy: set<Id>) {
    forall v :: v in w.seen && (v in starts || v !in m.tests) && v !in busy ==> Settled(m, starts, w, v)
  }

  ghost predicate LevelSeen(m: Sites, starts: set<Id>, w: Progress, level: nat) {
    forall v :: Near(m, starts, v, level) ==> v in w.seen
  }

  ghost predicate ProductionFound(m: Sites, starts: set<Id>, w: Progress) {
    forall v :: v in w.seen && v !in starts && v in m.production ==> v in w.found
  }

  ghost predicate Sound(m: Sites, starts: set<Id>, w: Progress, level: nat) {
    && starts <= w.seen
    && QueueSound(m, starts, w, level)
    && FoundSound(m, starts, w)
    && PathsSound(m, starts, w)
  }

  ghost predicate Complete(m: Sites, starts: set<Id>, w: Progress, level: nat, busy: set<Id>) {
    && AllSettled(m, starts, w, busy)
    && LevelSeen(m, starts, w, level)
    && ProductionFound(m, starts, w)
  }

  // ----- what one step keeps -----

  lemma SettledGrows(m: Sites, starts: set<Id>, w: Progress, w': Progress)
    requires w.seen <= w'.seen && w.queue <= w'.queue && (w.truncated ==> w'.truncated)
    ensures forall v :: Settled(m, starts, w, v) ==> Settled(m, starts, w', v)
  {
    hide Near;
    forall v | Queued(w, v) ensures Queued(w', v) {
      var i :| 0 <= i < |w.queue| && w.queue[i].id == v;
      assert w'.queue[i].id == v;
    }
  }

  lemma MarkingSeen(m: Sites, starts: set<Id>, w: Progress, level: nat, busy: set<Id>, v: Id)
    requires Sound(m, starts, w, level) && Complete(m, starts, w, level, busy)
    requires v in m.tests && m.Valid()
    ensures Sound(m, starts, w.(seen := w.seen + {v}), level)
    ensures Complete(m, starts, w.(seen := w.seen + {v}), level, busy)
  {
    hide Exact, Near, Settled;
    SettledGrows(m, starts, w, w.(seen := w.seen + {v}));
  }

  /** Records a production node: the path that justifies it is kept while there is room. */
  function Record(w: Progress, v: Id, trail: seq<Id>): Progress {
    var room := |w.paths| < MAX_EVIDENCE_PATHS;
    w.(seen := w.seen + {v}, found := w.found + {v}, paths := if room then w.paths + [trail] else w.paths,
       truncated := w.truncated || !room)
  }

  lemma EndsStayDistinct(paths: seq<seq<Id>>, p: seq<Id>)
    requires DistinctEnds(paths) && p != []
    requires forall q :: q in paths ==> q != [] && Last(q) != Last(p)
    ensures DistinctEnds(paths + [p])
  {
    hide Last;
    var more := paths + [p];
    assert forall i :: 0 <= i < |paths| ==> more[i] == paths[i] && paths[i] in paths;
    assert DistinctEnds(more);
  }

  lemma EvidenceGrows(paths: seq<seq<Id>>, p: seq<Id>)
    requires p != []
    ensures Evidenced(paths + [p], Last(p))
    ensures forall v :: Evidenced(paths, v) ==> Evidenced(paths + [p], v)
  {
    var more := paths + [p];
    assert more[|paths|] == p;
    forall v | Evidenced(paths, v) ensures Evidenced(more, v) {
      var i :| 0 <= i < |paths| && paths[i] != [] && Last(paths[i]) == v;
      assert more[i] == paths[i];
    }
  }

  lemma RecordingPaths(m: Sites, starts: set<Id>, w: Progress, v: Id, trail: seq<Id>)
    requires PathsSound(m, starts, w) && FoundSound(m, starts, w) && v !in w.seen
    requires Exact(m, starts, trail) && 2 <= |trail| <= MAX_REACH_DEPTH + 1 && Last(trail) == v
    ensures PathsSound(m, starts, Record(w, v, trail))
  {
    hide Exact, Near, Evidenced, DistinctEnds, Last;
    var w' := Record(w, v, trail);
    EvidenceGrows(w.paths, trail);
    assert forall p :: p in w.paths ==> PathSound(m, starts, w.found, p) && Last(p) != v;
    EndsStayDistinct(w.paths, trail);
    assert forall p :: p in w'.paths ==> p in w.paths || p == trail;
    assert forall p :: p in w'.paths ==> PathSound(m, starts, w'.found, p);
  }

  /** v is a node met for the first time, one edge beyond visit. */
  ghost predicate Meets(m: Sites, starts: set<Id>, w: Progress, visit: Visit, v: Id) {
    && VisitSound(m, starts, visit)
    && v in m.Next(visit.id) && v !in m.tests && v !in w.seen
    && Sound(m, starts, w, visit.depth)
    && Complete(m, starts, w, visit.depth, {visit.id})
  }

  lemma MeetsExactly(m: Sites, starts: set<Id>, w: Progress, visit: Visit, v: Id)
    requires Meets(m, starts, w, visit, v)
    ensures Exact(m, starts, visit.trail + [v]) && Last(visit.trail + [v]) == v
    ensures Near(m, starts, v, visit.depth + 1) && Near(m, starts, v, MAX_REACH_DEPTH)
    ensures !Near(m, starts, v, visit.depth)
  {
    ExactGrows(m, starts, visit.trail, v);
    WalkIsNear(m, starts, visit.trail + [v]);
    NearGrows(m, starts, v, visit.depth + 1, MAX_REACH_DEPTH);
  }

  /** The node is marked, and recorded when it is production; it is not settled yet. */
  ghost predicate Met(m: Sites, starts: set<Id>, w: Progress, visit: Visit, v: Id) {
    && VisitSound(m, starts, visit)
    && v !in m.tests && v in w.seen
    && !Near(m, starts, v, visit.depth)
    && Exact(m, starts, visit.trail + [v])
    && Sound(m, starts, w, visit.depth)
    && Complete(m, starts, w, visit.depth, {visit.id, v})
  }

  /** A newly met node may stay unsettled for a moment; everything else stays complete. */
  lemma CompleteButFor(m: Sites, starts: set<Id>, w: Progress, w': Progress, level: nat, busy: set<Id>, v: Id)
    requires Complete(m, starts, w, level, busy)
    requires w'.seen == w.seen + {v} && w'.queue == w.queue && w.found <= w'.found && (w.truncated ==> w'.truncated)
    requires v in m.production && v !in starts ==> v in w'.found
    ensures Complete(m, starts, w', level, busy + {v})
  {
    hide Near, Settled;
    SettledGrows(m, starts, w, w');
  }

  lemma QueueStaysSound(m: Sites, starts: set<Id>, w: Progress, w': Progress, level: nat)
    requires QueueSound(m, starts, w, level) && w'.queue == w.queue && w.seen <= w'.seen
    ensures QueueSound(m, starts, w', level)
  {
    hide VisitSound;
  }

  lemma MeetingOther(m: Sites, starts: set<Id>, w: Progress, visit: Visit, v: Id)
    requires Meets(m, starts, w, visit, v) && v !in m.production
    ensures Met(m, starts, w.(seen := w.seen + {v}), visit, v)
  {
    var w' := w.(seen := w.seen + {v});
    MeetsExactly(m, starts, w, visit, v);
    hide Exact, Near, VisitSound, Evidenced, DistinctEnds, Last, PathSound, Complete, QueueSound;
    CompleteButFor(m, starts, w, w', visit.depth, {visit.id}, v);
    assert {visit.id} + {v} == {visit.id, v};
    QueueStaysSound(m, starts, w, w', visit.depth);
    assert FoundSound(m, starts, w');
    assert PathsSound(m, starts, w');
  }

  lemma FoundGrows(m: Sites, starts: set<Id>, w: Progress, v: Id, trail: seq<Id>)
    requires FoundSound(m, starts, w) && |w.found| < MAX_REACH_NODES
    requires v in m.production && v !in starts && Near(m, starts, v, MAX_REACH_DEPTH)
    ensures FoundSound(m, starts, Record(w, v, trail))
  {
    hide Near;
  }

  lemma MeetingProduction(m: Sites, starts: set<Id>, w: Progress, visit: Visit, v: Id)
    requires Meets(m, starts, w, visit, v) && v in m.production && |w.found| < MAX_REACH_NODES
    ensures Met(m, starts, Record(w, v, visit.trail + [v]), visit, v)
  {
    var w' := Record(w, v, visit.trail + [v]);
    MeetsExactly(m, starts, w, visit, v);
    hide Exact, Near, VisitSound, PathsSound, Complete, QueueSound, FoundSound, Last;
    assert v !in starts;
    TrailLength(m, starts, visit);
    RecordingPaths(m, starts, w, v, visit.trail + [v]);
    CompleteButFor(m, starts, w, w', visit.depth, {visit.id}, v);
    assert {visit.id} + {v} == {visit.id, v};
    QueueStaysSound(m, starts, w, w', visit.depth);
    FoundGrows(m, starts, w, v, visit.trail + [v]);
  }

  lemma TrailLength(m: Sites, starts: set<Id>, visit: Visit)
    requires VisitSound(m, starts, visit)
    ensures 1 <= |visit.trail| <= MAX_REACH_DEPTH
  {
    hide Exact;
  }

  lemma Queueing(m: Sites, starts: set<Id>, w: Progress, visit: Visit, v: Id)
    requires Met(m, starts, w, visit, v) && visit.depth + 1 < MAX_REACH_DEPTH
    ensures var w' := w.(queue := w.queue + [Visit(v, visit.trail + [v], visit.depth + 1)]);
            Sound(m, starts, w', visit.depth) && Complete(m, starts, w', visit.depth, {visit.id})
  {
    hide Exact, Near, Settled;
    var w' := w.(queue := w.queue + [Visit(v, visit.trail + [v], visit.depth + 1)]);
    SettledGrows(m, starts, w, w');
    assert w'.queue[|w.queue|].id == v;
    assert Queued(w', v);
    QueuedIsSettled(m, starts, w', v);
    assert QueueSound(m, starts, w', visit.depth);
    assert FoundSound(m, starts, w');
    assert PathsSound(m, starts, w');
  }

  lemma QueuedIsSettled(m: Sites, starts: set<Id>, w: Progress, v: Id)
    requires Queued(w, v)
    ensures Settled(m, starts, w, v)
  {
  }

  lemma Leaving(m: Sites, starts: set<Id>, w: Progress, visit: Visit, v: Id)
    requires Met(m, starts, w, visit, v) && visit.depth + 1 >= MAX_REACH_DEPTH
    ensures var w' := w.(truncated := w.truncated || m.Next(v) != {});
            Sound(m, starts, w', visit.depth) && Complete(m, starts, w', visit.depth, {visit.id})
  {
    var w' := w.(truncated := w.truncated || m.Next(v) != {});
    SettledGrows(m, starts, w, w');
    assert Settled(m, starts, w', v);
    hide Exact, Near, Settled;
    assert QueueSound(m, starts, w', visit.depth);
    assert FoundSound(m, starts, w');
    assert PathsSound(m, starts, w');
  }

  // ----- why an answer is called truncated -----

  /** A node at the depth ceiling that has successors: what lies behind it is not looked at. */
  ghost predicate EndsShort(m: Sites, starts: set<Id>, v: Id) {
    v !in m.tests && Near(m, starts, v, MAX_REACH_DEPTH) && !Near(m, starts, v, MAX_REACH_DEPTH - 1) && m.Next(v) != {}
  }

  /** One evidence path for each node while there is room; the flag is set for want of room or depth only, and then. */
  ghost predicate Flagged(m: Sites, starts: set<Id>, w: Progress, busy: set<Id>) {
    && |w.paths| == (if |w.found| < MAX_EVIDENCE_PATHS then |w.found| else MAX_EVIDENCE_PATHS)
    && (|w.found| > MAX_EVIDENCE_PATHS ==> w.truncated)
    && (w.truncated ==> |w.found| > MAX_EVIDENCE_PATHS || exists v :: EndsShort(m, starts, v))
    && (forall v :: v in w.seen && v !in busy && EndsShort(m, starts, v) ==> w.truncated)
  }

  lemma FlagTest(m: Sites, starts: set<Id>, w: Progress, v: Id)
    requires Flagged(m, starts, w, {}) && v in m.tests
    ensures Flagged(m, starts, w.(seen := w.seen + {v}), {})
  {
    hide Near;
  }

  lemma FlagMet(m: Sites, starts: set<Id>, w: Progress, v: Id, trail: seq<Id>)
    requires Flagged(m, starts, w, {}) && v !in w.found
    ensures Flagged(m, starts, w.(seen := w.seen + {v}), {v}) && Flagged(m, starts, Record(w, v, trail), {v})
  {
    hide EndsShort;
    assert |w.found + {v}| == |w.found| + 1;
  }

  lemma FlagNearer(m: Sites, starts: set<Id>, w: Progress, v: Id, queue: seq<Visit>)
    requires Flagged(m, starts, w, {v}) && Near(m, starts, v, MAX_REACH_DEPTH - 1)
    ensures Flagged(m, starts, w.(queue := queue), {})
  {
    hide Near;
  }

  lemma FlagAtCeiling(m: Sites, starts: set<Id>, w: Progress, v: Id)
    requires Flagged(m, starts, w, {v}) && v !in m.tests
    requires Near(m, starts, v, MAX_REACH_DEPTH) && !Near(m, starts, v, MAX_REACH_DEPTH - 1)
    ensures Flagged(m, starts, w.(truncated := w.truncated || m.Next(v) != {}), {})
  {
    hide Near;
    assert m.Next(v) != {} ==> EndsShort(m, starts, v);
    hide EndsShort;
  }

  lemma FlagCapped(m: Sites, starts: set<Id>, w: Progress, seen: set<Id>, queue: seq<Visit>)
    requires Flagged(m, starts, w, {}) && |w.found| > MAX_EVIDENCE_PATHS
    ensures Flagged(m, starts, w.(seen := seen, truncated := true, queue := queue), {})
  {
    hide EndsShort;
  }

  lemma FlagQueue(m: Sites, starts: set<Id>, w: Progress, queue: seq<Visit>)
    requires Flagged(m, starts, w, {})
    ensures Flagged(m, starts, w.(queue := queue), {})
  {
    hide EndsShort;
  }

  lemma FoundIsSeen(m: Sites, starts: set<Id>, w: Progress, level: nat)
    requires Sound(m, starts, w, level)
    ensures w.found <= w.seen
  {
    hide Near;
  }

  /** A node met at a depth is that near, and no nearer. */
  lemma MetDepth(m: Sites, starts: set<Id>, w: Progress, visit: Visit, v: Id)
    requires Met(m, starts, w, visit, v)
    ensures v !in m.tests && Near(m, starts, v, visit.depth + 1) && !Near(m, starts, v, visit.depth)
    ensures forall n: nat :: visit.depth + 1 <= n ==> Near(m, starts, v, n)
  {
    hide Sound, Complete, Near;
    var p := visit.trail + [v];
    assert Last(p) == v;
    WalkIsNear(m, starts, p);
    assert |p| - 1 == visit.depth + 1;
    forall n: nat | visit.depth + 1 <= n ensures Near(m, starts, v, n) {
      NearGrows(m, starts, v, visit.depth + 1, n);
    }
  }

  /** What the walk does with one successor of the visited node; stop says that the node ceiling was met. */
  method Discover(m: Sites, ghost starts: set<Id>, w: Progress, visit: Visit, next: Id)
    returns (r: Progress, stop: bool)
    requires m.Valid() && VisitSound(m, starts, visit) && next in m.Next(visit.id)
    requires Sound(m, starts, w, visit.depth) && Complete(m, starts, w, visit.depth, {visit.id})
    requires Flagged(m, starts, w, {})
    ensures Sound(m, starts, r, visit.depth) && Flagged(m, starts, r, {})
    ensures if stop then r.truncated && |r.found| >= MAX_REACH_NODES
              else Complete(m, starts, r, visit.depth, {visit.id})
    ensures r.seen == w.seen + {next} && (next in w.seen ==> r == w)
  {
    FoundIsSeen(m, starts, w, visit.depth);
    hide Exact, Near, Complete, Sound, VisitSound, Flagged, Met;
    r, stop := w, false;
    if next in r.seen {
      assert r.seen == w.seen + {next};
      return;
    }
    r := r.(seen := r.seen + {next});
    if next in m.tests {
      MarkingSeen(m, starts, w, visit.depth, {visit.id}, next);
      FlagTest(m, starts, w, next);
      return;
    }
    var trail := visit.trail + [next];
    FlagMet(m, starts, w, next, trail);
    if next in m.production {
      if |r.found| >= MAX_REACH_NODES {
        Capping(m, starts, w, visit.depth, next);
        FlagCapped(m, starts, w, r.seen, w.queue);
        r, stop := r.(truncated := true), true;
        return;
      }
      MeetingProduction(m, starts, w, visit, next);
      r := Record(r, next, trail);
    } else {
      MeetingOther(m, starts, w, visit, next);
    }
    assert Met(m, starts, r, visit, next);
    MetDepth(m, starts, r, visit, next);
    if visit.depth + 1 < MAX_REACH_DEPTH {
      Queueing(m, starts, r, visit, next);
      FlagNearer(m, starts, r, next, r.queue + [Visit(next, trail, visit.depth + 1)]);
      r := r.(queue := r.queue + [Visit(next, trail, visit.depth + 1)]);
    } else {
      Leaving(m, starts, r, visit, next);
      VisitDepth(m, starts, visit);
      FlagAtCeiling(m, starts, r, next);
      r := r.(truncated := r.truncated || m.Next(next) != {});
    }
  }

  lemma VisitDepth(m: Sites, starts: set<Id>, visit: Visit)
    requires VisitSound(m, starts, visit)
    ensures visit.depth < MAX_REACH_DEPTH
  {
  }

  lemma Capping(m: Sites, starts: set<Id>, w: Progress, level: nat, v: Id)
    requires Sound(m, starts, w, level)
    ensures Sound(m, starts, w.(seen := w.seen + {v}, truncated := true), level)
  {
    hide Exact, Near;
    var w' := w.(seen := w.seen + {v}, truncated := true);
    assert QueueSound(m, starts, w', level);
    assert FoundSound(m, starts, w');
    assert PathsSound(m, starts, w');
  }

  /** All successors of one visited node. */
  method Expand(m: Sites, ghost starts: set<Id>, w: Progress, visit: Visit) returns (r: Progress, ghost capped: bool)
    requires m.Valid() && VisitSound(m, starts, visit)
    requires Sound(m, starts, w, visit.depth) && Complete(m, starts, w, visit.depth, {visit.id})
    requires Flagged(m, starts, w, {})
    ensures Sound(m, starts, r, visit.depth) && Flagged(m, starts, r, {})
    ensures if capped then r.truncated && |r.found| >= MAX_REACH_NODES else Complete(m, starts, r, visit.depth, {})
    ensures w.seen <= r.seen <= w.seen + m.Next(visit.id) && (r.seen == w.seen ==> r == w)
  {
    hide VisitSound, Sound, Complete, Flagged;
    r, capped := w, false;
    var rest := m.Next(visit.id);
    while rest != {}
      invariant rest <= m.Next(visit.id) && m.Next(visit.id) - rest <= r.seen
      invariant Sound(m, starts, r, visit.depth) && Complete(m, starts, r, visit.depth, {visit.id})
      invariant Flagged(m, starts, r, {})
      invariant w.seen <= r.seen <= w.seen + m.Next(visit.id) && (r.seen == w.seen ==> r == w)
      decreases rest
    {
      var next :| next in rest;
      rest := rest - {next};
      var stop;
      r, stop := Discover(m, starts, r, visit, next);
      if stop {
        capped := true;
        return;
      }
    }
    Expanded(m, starts, r, visit.depth, visit.id);
  }

  lemma Expanded(m: Sites, starts: set<Id>, w: Progress, level: nat, v: Id)
    requires Complete(m, starts, w, level, {v}) && m.Next(v) <= w.seen
    ensures Complete(m, starts, w, level, {})
  {
    assert Settled(m, starts, w, v);
    hide Settled;
  }

  // ----- from level to level -----

  /** When every waiting node lies beyond the level, the next level has been seen in full. */
  lemma Advance(m: Sites, starts: set<Id>, w: Progress, level: nat)
    requires starts <= w.seen && AllSettled(m, starts, w, {}) && LevelSeen(m, starts, w, level)
    requires level < MAX_REACH_DEPTH
    requires forall i :: 0 <= i < |w.queue| ==> VisitSound(m, starts, w.queue[i]) && w.queue[i].depth == level + 1
    ensures LevelSeen(m, starts, w, level + 1)
  {
    forall v | Near(m, starts, v, level + 1) ensures v in w.seen {
      if v !in starts {
        var u :| v in m.Next(u) && Near(m, starts, u, level);
        Beyond(m, starts, w, level, u);
      }
    }
  }

  lemma Beyond(m: Sites, starts: set<Id>, w: Progress, level: nat, u: Id)
    requires AllSettled(m, starts, w, {}) && LevelSeen(m, starts, w, level) && level < MAX_REACH_DEPTH
    requires Near(m, starts, u, level)
    requires forall i :: 0 <= i < |w.queue| ==> VisitSound(m, starts, w.queue[i]) && w.queue[i].depth == level + 1
    ensures m.Next(u) <= w.seen
  {
    assert Settled(m, starts, w, u);
    NearGrows(m, starts, u, level, MAX_REACH_DEPTH - 1);
    assert forall i :: 0 <= i < |w.queue| ==> !Near(m, starts, w.queue[i].id, level);
  }

  lemma PoppedQueue(m: Sites, starts: set<Id>, w: Progress, level: nat)
    requires w.queue != [] && QueueSound(m, starts, w, level)
    ensures VisitSound(m, starts, w.queue[0]) && QueueSound(m, starts, w.(queue := w.queue[1..]), w.queue[0].depth)
    ensures forall i :: 0 <= i < |w.queue| ==>
              VisitSound(m, starts, w.queue[i]) && w.queue[0].depth <= w.queue[i].depth <= level + 1
  {
    hide VisitSound;
    var rest := w.(queue := w.queue[1..]);
    assert forall i :: 0 <= i < |rest.queue| ==> rest.queue[i] == w.queue[i + 1];
  }

  lemma PoppedSettled(m: Sites, starts: set<Id>, w: Progress)
    requires w.queue != [] && AllSettled(m, starts, w, {})
    ensures AllSettled(m, starts, w.(queue := w.queue[1..]), {w.queue[0].id})
  {
    hide Settled;
    forall v | Settled(m, starts, w, v) && v != w.queue[0].id ensures Settled(m, starts, w.(queue := w.queue[1..]), v) {
      StillSettled(m, starts, w, v);
    }
  }

  lemma Popped(m: Sites, starts: set<Id>, w: Progress, level: nat)
    requires w.queue != [] && Sound(m, starts, w, level) && Complete(m, starts, w, level, {})
    ensures var visit, rest := w.queue[0], w.(queue := w.queue[1..]);
            && VisitSound(m, starts, visit) && visit.depth < MAX_REACH_DEPTH
            && Sound(m, starts, rest, visit.depth) && Complete(m, starts, rest, visit.depth, {visit.id})
  {
    var visit, rest := w.queue[0], w.(queue := w.queue[1..]);
    PoppedQueue(m, starts, w, level);
    PoppedSettled(m, starts, w);
    assert visit.depth < MAX_REACH_DEPTH && level <= visit.depth <= level + 1;
    hide VisitSound, Settled, FoundSound, PathsSound, LevelSeen, AllSettled, QueueSound;
    if visit.depth > level {
      Advance(m, starts, w, level);
    }
    assert LevelSeen(m, starts, w, visit.depth);
    SameRecords(m, starts, w, rest);
  }

  lemma SameRecords(m: Sites, starts: set<Id>, w: Progress, r: Progress)
    requires r == w.(queue := r.queue)
    ensures FoundSound(m, starts, w) == FoundSound(m, starts, r) && PathsSound(m, starts, w) == PathsSound(m, starts, r)
    ensures forall level :: LevelSeen(m, starts, w, level) == LevelSeen(m, starts, r, level)
  {
    hide Near, PathSound, Evidenced, DistinctEnds;
  }

  lemma StillSettled(m: Sites, starts: set<Id>, w: Progress, v: Id)
    requires w.queue != [] && Settled(m, starts, w, v) && v != w.queue[0].id
    ensures Settled(m, starts, w.(queue := w.queue[1..]), v)
  {
    hide Near;
    var rest := w.(queue := w.queue[1..]);
    if Queued(w, v) {
      var i :| 0 <= i < |w.queue| && w.queue[i].id == v;
      assert rest.queue[i - 1].id == v;
    }
  }

  // ----- what the finished walk has found -----

  /** The search is over and the node ceiling did not stop it. */
  ghost predicate Exhausted(m: Sites, starts: set<Id>, w: Progress) {
    w.queue == [] && starts <= w.seen && AllSettled(m, starts, w, {}) && ProductionFound(m, starts, w)
    && LevelSeen(m, starts, w, 0)
  }

  lemma {:induction false} SeesWithin(m: Sites, starts: set<Id>, w: Progress, level: nat)
    requires Exhausted(m, starts, w) && level <= MAX_REACH_DEPTH
    ensures LevelSeen(m, starts, w, level)
  {
    if level > 0 {
      SeesWithin(m, starts, w, level - 1);
      Advance(m, starts, w, level - 1);
    }
  }

  /** Without the truncation flag no level is missed, however far. */
  lemma {:induction false} SeesEverything(m: Sites, starts: set<Id>, w: Progress, v: Id, k: nat)
    requires Exhausted(m, starts, w) && !w.truncated && Near(m, starts, v, k)
    ensures v in w.seen
    decreases k
  {
    if v !in starts {
      var u :| v in m.Next(u) && Near(m, starts, u, k - 1);
      SeesEverything(m, starts, w, u, k - 1);
      assert u in starts || u !in m.tests;
      assert Settled(m, starts, w, u);
    }
  }

  /** What a reported set of nodes and paths promises. */
  ghost predicate Justified(m: Sites, starts: set<Id>, nodes: set<Id>, paths: seq<seq<Id>>) {
    && |nodes| <= 64 && |paths| <= 32
    && (forall v :: v in nodes ==> v in m.production && v !in starts && Reachable(m, starts, v))
    && DistinctEnds(paths)
    && (forall p :: p in paths ==> IsEvidence(m, starts, nodes, p))
  }

  ghost predicate IsEvidence(m: Sites, starts: set<Id>, nodes: set<Id>, p: seq<Id>) {
    2 <= |p| <= 5 && Walk(m, starts, p) && IsShortest(m, starts, p) && Last(p) in nodes
  }

  lemma SoundIsJustified(m: Sites, starts: set<Id>, w: Progress)
    requires FoundSound(m, starts, w) && PathsSound(m, starts, w)
    ensures Justified(m, starts, w.found, w.paths)
  {
    forall v | v in w.found ensures Reachable(m, starts, v) {
      NearIsReachable(m, starts, v, MAX_REACH_DEPTH);
    }
    forall p | p in w.paths ensures IsEvidence(m, starts, w.found, p) {
      assert PathSound(m, starts, w.found, p);
      ExactIsShortest(m, starts, p);
    }
    hide IsEvidence, DistinctEnds, Reachable, Near, PathSound;
  }

  function Started(onPath: seq<Id>): Progress {
    Progress(set v | v in onPath, {}, [], false,
             seq(|onPath|, i requires 0 <= i < |onPath| => Visit(onPath[i], [onPath[i]], 0)))
  }

  method Start(onPath: seq<Id>) returns (w: Progress)
    ensures w == Started(onPath)
  {
    w := Progress({}, {}, [], false, []);
    for i := 0 to |onPath|
      invariant w == Started(onPath[..i])
    {
      w := w.(seen := w.seen + {onPath[i]}, queue := w.queue + [Visit(onPath[i], [onPath[i]], 0)]);
      assert w.seen == Started(onPath[..i + 1]).seen;
      assert w.queue == Started(onPath[..i + 1]).queue;
    }
    assert onPath[..|onPath|] == onPath;
  }

  lemma StartedIsSound(m: Sites, onPath: seq<Id>)
    ensures var w := Started(onPath); Sound(m, w.seen, w, 0) && Complete(m, w.seen, w, 0, {})
  {
    var w := Started(onPath);
    var starts := w.seen;
    assert QueueSound(m, starts, w, 0);
    forall v | v in w.seen ensures Settled(m, starts, w, v) {
      var i :| 0 <= i < |onPath| && onPath[i] == v;
      assert w.queue[i].id == v;
    }
  }

  lemma Finished(m: Sites, starts: set<Id>, w: Progress, level: nat)
    requires w.queue == [] && Sound(m, starts, w, level) && Complete(m, starts, w, level, {})
    ensures Exhausted(m, starts, w)
  {
    forall v | Near(m, starts, v, 0) ensures v in w.seen {
      NearGrows(m, starts, v, 0, level);
    }
    hide Near, Settled;
  }

  lemma CappingKeeps(m: Sites, starts: set<Id>, w: Progress, level: nat)
    requires w.queue != [] && Sound(m, starts, w, level)
    ensures w.queue[0].depth < MAX_REACH_DEPTH
    ensures Sound(m, starts, w.(queue := w.queue[1..], truncated := true), level)
  {
    assert VisitSound(m, starts, w.queue[0]);
    hide Near, Exact, VisitSound, PathSound;
    var w' := w.(queue := w.queue[1..], truncated := true);
    assert QueueSound(m, starts, w', level);
    assert FoundSound(m, starts, w');
    assert PathsSound(m, starts, w');
  }

  /** Everything an edge leads to. */
  ghost function Universe(m: Sites): set<Id> {
    set u, v | u in m.targets && v in m.targets[u] :: v
  }

  /** The whole walk, from the nodes of a binding's own file. */
  method BreadthFirst(m: Sites, onPath: seq<Id>) returns (w: Progress)
    requires m.Valid()
    ensures var starts := Started(onPath).seen; FoundSound(m, starts, w) && PathsSound(m, starts, w)
    ensures |w.found| < MAX_REACH_NODES || !w.truncated ==> Exhausted(m, Started(onPath).seen, w)
    ensures Flagged(m, Started(onPath).seen, w, {})
  {
    StartedIsFlagged(m, onPath);
    hide Sound, Complete, Exhausted, Started, Flagged;
    ghost var starts := Started(onPath).seen;
    w := Start(onPath);
    StartedIsSound(m, onPath);
    ghost var level: nat, capped := 0, false;
    var stopped := false;
    while w.queue != [] && !stopped
      invariant Sound(m, starts, w, level) && Flagged(m, starts, w, {})
      invariant stopped ==> capped
      invariant if capped then w.truncated && |w.found| >= MAX_REACH_NODES else Complete(m, starts, w, level, {})
      decreases !stopped, Universe(m) - w.seen, |w.queue|
    {
      var visit := w.queue[0];
      if visit.depth >= MAX_REACH_DEPTH || |w.found| >= MAX_REACH_NODES {
        CappingKeeps(m, starts, w, level);
        FlagCapped(m, starts, w, w.seen, w.queue[1..]);
        w := w.(queue := w.queue[1..], truncated := true);
        stopped := visit.depth < MAX_REACH_DEPTH;
        capped := true;
      } else {
        Popped(m, starts, w, level);
        FlagQueue(m, starts, w, w.queue[1..]);
        w := w.(queue := w.queue[1..]);
        level := visit.depth;
        w, capped := Expand(m, starts, w, visit);
      }
    }
    if !capped {
      Finished(m, starts, w, level);
    }
    SoundParts(m, starts, w, level);
  }

  lemma StartedIsFlagged(m: Sites, onPath: seq<Id>)
    ensures var w := Started(onPath); Flagged(m, w.seen, w, {})
  {
    var starts := Started(onPath).seen;
    forall v | v in starts ensures !EndsShort(m, starts, v) {
      NearGrows(m, starts, v, 0, MAX_REACH_DEPTH - 1);
    }
    hide EndsShort;
  }

  /** In the end the flag says that evidence or depth ran out, and nothing else. */
  lemma FlagIsExact(m: Sites, starts: set<Id>, w: Progress)
    requires Flagged(m, starts, w, {}) && (|w.found| < MAX_REACH_NODES || !w.truncated ==> Exhausted(m, starts, w))
    ensures w.truncated <==> |w.found| > MAX_EVIDENCE_PATHS || exists v :: EndsShort(m, starts, v)
  {
    if !w.truncated {
      SeesWithin(m, starts, w, MAX_REACH_DEPTH);
      hide Near, Exhausted;
      assert forall v :: EndsShort(m, starts, v) ==> v in w.seen;
    }
  }

  lemma SoundParts(m: Sites, starts: set<Id>, w: Progress, level: nat)
    requires Sound(m, starts, w, level)
    ensures FoundSound(m, starts, w) && PathsSound(m, starts, w)
  {
  }
}

/** From a code graph and a binding path to the production nodes the binding may claim. */
module BindingReach {
  import opened Options
  import opened Text
  import opened Sorting
  import opened Listings
  import opened Lcov
  import opened SourcePaths
  import opened Walks
  import opened Reach

  /** A graph node; an absent id reads as empty. */
  datatype Node = Node(id: Id, spanFile: Option<string>)

  datatype Edge = Edge(source: Option<string>, from: Option<string>, target: Option<string>, to: Option<string>)

  datatype Graph = Graph(nodes: seq<Node>, edges: seq<Edge>)

  datatype BindingReach = BindingReach(nodes: seq<Id>, evidencePaths: seq<seq<Id>>, truncated: bool)

  function NonEmpty(s: Option<string>): Option<string> {
    if s == Some("") then None else s
  }

  function Prefer(a: Option<string>, b: Option<string>): Option<string> {
    if NonEmpty(a).Some? then a else NonEmpty(b)
  }

  function WithoutScheme(id: Id): string {
    if "file:" <= id then id[5..] else if "symbol:" <= id then id[7..] else id
  }

  /** The file of a node: its span, or the path its id names. */
  function NodeFile(n: Node): Option<string> {
    NonEmpty(Some(Slashes(if n.spanFile.Some? then n.spanFile.value else UpTo(WithoutScheme(n.id), '#'))))
  }

  // ----- what the graph says -----

  ghost predicate DistinctNodeIds(g: Graph) {
    forall i, j :: 0 <= i < j < |g.nodes| && g.nodes[i].id != "" ==> g.nodes[i].id != g.nodes[j].id
  }

  ghost predicate LivesIn(g: Graph, id: Id, file: string) {
    id != "" && exists n :: n in g.nodes && n.id == id && NodeFile(n) == Some(file)
  }

  ghost predicate HasEdge(edges: seq<Edge>, u: Id, v: Id) {
    exists e :: e in edges && Prefer(e.source, e.from) == Some(u) && Prefer(e.target, e.to) == Some(v)
  }

  function FilesOf(nodes: seq<Node>): map<Id, string> {
    if nodes == [] then map[]
    else
      var n := nodes[|nodes| - 1];
      var before := FilesOf(nodes[..|nodes| - 1]);
      if n.id != "" && NodeFile(n).Some? then before[n.id := NodeFile(n).value] else before
  }

  /** The nodes of one file, in graph order. */
  function OnPath(nodes: seq<Node>, path: string): seq<Id> {
    if nodes == [] then []
    else
      var n := nodes[|nodes| - 1];
      OnPath(nodes[..|nodes| - 1], path) + if n.id != "" && NodeFile(n) == Some(path) then [n.id] else []
  }

  function TargetsOf(edges: seq<Edge>): map<Id, set<Id>> {
    if edges == [] then map[]
    else WithEdge(TargetsOf(edges[..|edges| - 1]), edges[|edges| - 1])
  }

  function WithEdge(targets: map<Id, set<Id>>, e: Edge): map<Id, set<Id>> {
    var u, v := Prefer(e.source, e.from), Prefer(e.target, e.to);
    if u.None? || v.None? then targets
    else targets[u.value := (if u.value in targets then targets[u.value] else {}) + {v.value}]
  }

  function SitesFrom(files: map<Id, string>, targets: map<Id, set<Id>>): (m: Sites)
    ensures m.Valid()
  {
    var tests := set id | id in files && IsTestSourcePath(files[id]);
    var production := set id | id in files && IsProductionSource(files[id]);
    Sites(tests, production, targets)
  }

  function SitesOf(g: Graph): Sites {
    SitesFrom(FilesOf(g.nodes), TargetsOf(g.edges))
  }

  function StartsOf(g: Graph, path: string): set<Id> {
    Started(OnPath(g.nodes, path)).seen
  }

  lemma {:induction false} TargetsAreEdges(edges: seq<Edge>, m: Sites)
    requires m.targets == TargetsOf(edges)
    ensures forall u, v :: v in m.Next(u) <==> HasEdge(edges, u, v)
  {
    if edges != [] {
      var n := |edges| - 1;
      var before := m.(targets := TargetsOf(edges[..n]));
      TargetsAreEdges(edges[..n], before);
      forall u, v ensures v in m.Next(u) <==> HasEdge(edges, u, v) {
        LastEdge(edges, u, v);
        assert v in before.Next(u) <==> HasEdge(edges[..n], u, v);
      }
    }
  }

  lemma LastEdge(edges: seq<Edge>, u: Id, v: Id)
    requires edges != []
    ensures var e := edges[|edges| - 1];
            HasEdge(edges, u, v) <==> HasEdge(edges[..|edges| - 1], u, v)
                                      || (Prefer(e.source, e.from) == Some(u) && Prefer(e.target, e.to) == Some(v))
  {
    hide Prefer;
    var n := |edges| - 1;
    assert edges == edges[..n] + [edges[n]];
    assert forall e :: e in edges <==> e in edges[..n] || e == edges[n];
  }

  lemma {:induction false} OnPathLives(nodes: seq<Node>, edges: seq<Edge>, path: string)
    ensures forall id :: id in OnPath(nodes, path) <==> LivesIn(Graph(nodes, edges), id, path)
  {
    if nodes != [] {
      var n := |nodes| - 1;
      OnPathLives(nodes[..n], edges, path);
      assert nodes == nodes[..n] + [nodes[n]];
      assert forall x :: x in nodes <==> x in nodes[..n] || x == nodes[n];
      hide NodeFile;
      forall id ensures id in OnPath(nodes, path) <==> LivesIn(Graph(nodes, edges), id, path) {
        assert id in OnPath(nodes[..n], path) <==> LivesIn(Graph(nodes[..n], edges), id, path);
      }
    }
  }

  lemma {:induction false} FilesAreLives(nodes: seq<Node>, edges: seq<Edge>, id: Id, file: string)
    requires DistinctNodeIds(Graph(nodes, edges)) && LivesIn(Graph(nodes, edges), id, file)
    ensures id in FilesOf(nodes) && FilesOf(nodes)[id] == file
  {
    hide NodeFile;
    var n := |nodes| - 1;
    var x :| x in nodes && x.id == id && NodeFile(x) == Some(file);
    var i :| 0 <= i <= n && nodes[i] == x;
    if i < n {
      assert nodes[..n][i] == x;
      FilesAreLives(nodes[..n], edges, id, file);
    }
  }

  lemma {:induction false} FilesOfLive(nodes: seq<Node>, edges: seq<Edge>, id: Id)
    requires id in FilesOf(nodes)
    ensures LivesIn(Graph(nodes, edges), id, FilesOf(nodes)[id])
  {
    hide NodeFile;
    var n := |nodes| - 1;
    assert nodes == nodes[..n] + [nodes[n]];
    if id in FilesOf(nodes[..n]) {
      FilesOfLive(nodes[..n], edges, id);
      assert forall x :: x in nodes[..n] ==> x in nodes;
    }
  }

  /** With unique ids a node is a test or production code exactly when it lives in such a file. */
  lemma SitesAre(g: Graph, id: Id)
    requires DistinctNodeIds(g)
    ensures id in SitesOf(g).tests <==> exists file :: LivesIn(g, id, file) && IsTestSourcePath(file)
    ensures id in SitesOf(g).production <==> exists file :: LivesIn(g, id, file) && IsProductionSource(file)
  {
    hide IsTestSourcePath, IsProductionSource, LivesIn, TargetsOf;
    if id in FilesOf(g.nodes) {
      FilesOfLive(g.nodes, g.edges, id);
    }
    forall file | LivesIn(g, id, file) ensures id in FilesOf(g.nodes) && FilesOf(g.nodes)[id] == file {
      FilesAreLives(g.nodes, g.edges, id, file);
    }
  }

  /** With unique node ids the walk of a test binding starts from test nodes only. */
  lemma StartsAreTests(g: Graph, path: string)
    requires DistinctNodeIds(g) && IsTestSourcePath(path)
    ensures StartsOf(g, path) <= SitesOf(g).tests
  {
    hide IsTestSourcePath, IsProductionSource;
    OnPathLives(g.nodes, g.edges, path);
    forall id | id in OnPath(g.nodes, path) ensures id in SitesOf(g).tests {
      FilesAreLives(g.nodes, g.edges, id, path);
    }
  }

  // ----- the operation -----

  method ReadNodes(g: Graph, path: string) returns (files: map<Id, string>, onPath: seq<Id>)
    ensures files == FilesOf(g.nodes) && onPath == OnPath(g.nodes, path)
  {
    hide NodeFile;
    files, onPath := map[], [];
    for i := 0 to |g.nodes|
      invariant files == FilesOf(g.nodes[..i]) && onPath == OnPath(g.nodes[..i], path)
    {
      var n := g.nodes[i];
      assert g.nodes[..i + 1][..i] == g.nodes[..i];
      if n.id != "" {
        var file := NodeFile(n);
        if file.Some? {
          files := files[n.id := file.value];
          if file.value == path {
            onPath := onPath + [n.id];
          }
        }
      }
    }
    assert g.nodes[..|g.nodes|] == g.nodes;
  }

  method Outgoing(g: Graph) returns (targets: map<Id, set<Id>>)
    ensures targets == TargetsOf(g.edges)
  {
    hide WithEdge;
    targets := map[];
    for i := 0 to |g.edges|
      invariant targets == TargetsOf(g.edges[..i])
    {
      assert g.edges[..i + 1][..i] == g.edges[..i];
      targets := WithEdge(targets, g.edges[i]);
    }
    assert g.edges[..|g.edges|] == g.edges;
  }

  function Singles(ids: seq<Id>): seq<seq<Id>> {
    seq(|ids|, i requires 0 <= i < |ids| => [ids[i]])
  }

  function Elements(ids: seq<Id>): set<Id> {
    set v | v in ids
  }

  /** One path for each node, up to the ceiling; truncated for more nodes, or for code behind the fourth edge. */
  ghost predicate IsAccounted(m: Sites, starts: set<Id>, r: BindingReach) {
    && |r.evidencePaths| == (if |r.nodes| < 32 then |r.nodes| else 32)
    && (r.truncated <==>
        || |r.nodes| > 32
        || exists v :: v !in m.tests && Near(m, starts, v, 4) && !Near(m, starts, v, 3) && m.Next(v) != {})
  }

  /** Every reported node is production code the binding reaches, and every path a shortest walk to one of them. */
  ghost predicate IsReach(m: Sites, starts: set<Id>, r: BindingReach) {
    && Ascending(r.nodes, Text.Before)
    && Justified(m, starts, Elements(r.nodes), r.evidencePaths)
  }

  /** Exactly the production code within the depth ceiling. */
  ghost predicate IsAllWithinCeiling(m: Sites, starts: set<Id>, nodes: seq<Id>) {
    forall v :: v in nodes <==> v in m.production && v !in starts && Near(m, starts, v, 4)
  }

  /** Exactly the production code the binding reaches, each with its evidence. */
  ghost predicate IsAllReachable(m: Sites, starts: set<Id>, r: BindingReach) {
    && (forall v :: v in r.nodes <==> v in m.production && v !in starts && Reachable(m, starts, v))
    && (forall v :: v in r.nodes ==> Evidenced(r.evidencePaths, v))
  }

  lemma WithinCeiling(m: Sites, starts: set<Id>, w: Progress)
    requires FoundSound(m, starts, w) && Exhausted(m, starts, w)
    ensures forall v :: v in w.found <==> v in m.production && v !in starts && Near(m, starts, v, 4)
  {
    SeesWithin(m, starts, w, MAX_REACH_DEPTH);
    hide Near, AllSettled;
  }

  lemma AllReachable(m: Sites, starts: set<Id>, w: Progress)
    requires FoundSound(m, starts, w) && Exhausted(m, starts, w) && !w.truncated
    ensures forall v :: v in w.found <==> v in m.production && v !in starts && Reachable(m, starts, v)
  {
    forall v ensures v in w.found <==> v in m.production && v !in starts && Reachable(m, starts, v) {
      if v in w.found {
        NearIsReachable(m, starts, v, MAX_REACH_DEPTH);
      }
      if v in m.production && v !in starts && Reachable(m, starts, v) {
        var p :| Walk(m, starts, p) && Last(p) == v;
        WalkIsNear(m, starts, p);
        SeesEverything(m, starts, w, v, |p| - 1);
      }
    }
  }

  method ReachFromTest(m: Sites, onPath: seq<Id>) returns (r: BindingReach)
    requires m.Valid()
    ensures IsReach(m, Started(onPath).seen, r)
    ensures |r.nodes| < 64 ==> IsAllWithinCeiling(m, Started(onPath).seen, r.nodes)
    ensures !r.truncated ==> IsAllReachable(m, Started(onPath).seen, r)
    ensures IsAccounted(m, Started(onPath).seen, r)
  {
    hide Started, Exhausted, FoundSound, Near, Reachable, Evidenced, PathSound, IsEvidence, DistinctEnds, Flagged;
    var w := BreadthFirst(m, onPath);
    ghost var starts := Started(onPath).seen;
    SoundIsJustified(m, starts, w);
    var nodes := Listing(w.found);
    assert Elements(nodes) == w.found;
    if |w.found| < MAX_REACH_NODES || !w.truncated { WithinCeiling(m, starts, w); }
    if !w.truncated { AllReachable(m, starts, w); }
    r := BindingReach(nodes, w.paths, w.truncated);
    FlagIsExact(m, starts, w);
    Accounted(m, starts, w, r);
  }

  lemma Accounted(m: Sites, starts: set<Id>, w: Progress, r: BindingReach)
    requires Ascending(r.nodes, Text.Before) && Elements(r.nodes) == w.found && r.evidencePaths == w.paths
    requires Flagged(m, starts, w, {}) && r.truncated == w.truncated
    requires w.truncated <==> |w.found| > MAX_EVIDENCE_PATHS || exists v :: EndsShort(m, starts, v)
    ensures IsAccounted(m, starts, r)
  {
    ListedOnce(r.nodes);
    hide Near, Elements, Ascending;
    assert forall v :: EndsShort(m, starts, v) <==>
      v !in m.tests && Near(m, starts, v, 4) && !Near(m, starts, v, 3) && m.Next(v) != {};
  }

  lemma {:induction false} ListedOnce(ids: seq<Id>)
    requires Ascending(ids, Text.Before)
    ensures |Elements(ids)| == |ids|
  {
    if ids != [] {
      var n := |ids| - 1;
      ListedOnce(ids[..n]);
      LastIsNew(ids);
      assert ids == ids[..n] + [ids[n]];
      assert Elements(ids) == Elements(ids[..n]) + {ids[n]};
    }
  }

  lemma LastIsNew(ids: seq<Id>)
    requires ids != [] && Ascending(ids, Text.Before)
    ensures ids[|ids| - 1] !in ids[..|ids| - 1]
  {
    hide Text.Before;
    forall i | 0 <= i < |ids| - 1 ensures ids[i] != ids[|ids| - 1] {
      assert Text.Before(ids[i], ids[|ids| - 1]);
      BeforeIrreflexive(ids[i]);
    }
  }

  method ProductionNodesForBinding(g: Graph, bindingPath: string) returns (r: BindingReach)
    ensures bindingPath == "" ==> r == BindingReach([], [], false)
    ensures var path := Slashes(bindingPath);
            path != "" && !IsTestSourcePath(path) ==>
              && !r.truncated && r.nodes == OnPath(g.nodes, path)
              && r.evidencePaths == Singles(r.nodes)[..if |r.nodes| < 32 then |r.nodes| else 32]
    ensures var path := Slashes(bindingPath);
            path != "" && IsTestSourcePath(path) ==>
              && IsReach(SitesOf(g), StartsOf(g, path), r) && IsAccounted(SitesOf(g), StartsOf(g, path), r)
              && (|r.nodes| < 64 ==> IsAllWithinCeiling(SitesOf(g), StartsOf(g, path), r.nodes))
              && (!r.truncated ==> IsAllReachable(SitesOf(g), StartsOf(g, path), r))
  {
    hide IsReach, IsAllWithinCeiling, IsAllReachable, IsAccounted;
    hide Slashes, IsTestSourcePath, IsProductionSource, Started, SitesFrom;
    var path := Slashes(bindingPath);
    if path == "" { return BindingReach([], [], false); }
    var files, onPath := ReadNodes(g, path);
    if !IsTestSourcePath(path) {
      var kept := if |onPath| < MAX_EVIDENCE_PATHS then |onPath| else MAX_EVIDENCE_PATHS;
      return BindingReach(onPath, Singles(onPath)[..kept], false);
    }
    var targets := Outgoing(g);
    r := ReachFromTest(SitesFrom(files, targets), onPath);
  }

  /** With unique ids, an answer without the truncation flag is exactly the production code the binding reaches. */
  lemma UntruncatedIsExact(g: Graph, path: string, r: BindingReach)
    requires DistinctNodeIds(g) && IsTestSourcePath(path) && IsAllReachable(SitesOf(g), StartsOf(g, path), r)
    ensures forall v :: v in r.nodes <==> Reachable(SitesOf(g), StartsOf(g, path), v)
                                          && exists file :: LivesIn(g, v, file) && IsProductionSource(file)
    ensures forall v :: v in SitesOf(g).tests <==> exists file :: LivesIn(g, v, file) && IsTestSourcePath(file)
    ensures forall id :: id in StartsOf(g, path) <==> LivesIn(g, id, path)
    ensures forall u, v :: v in SitesOf(g).Next(u) <==> HasEdge(g.edges, u, v)
  {
    StartsAreTests(g, path);
    OnPathLives(g.nodes, g.edges, path);
    TargetsAreEdges(g.edges, SitesOf(g));
    hide IsTestSourcePath, IsProductionSource, Reachable, LivesIn, HasEdge;
    assert forall v :: v in r.nodes <==> v in SitesOf(g).production && Reachable(SitesOf(g), StartsOf(g, path), v);
    hide SitesOf, StartsOf, OnPath, IsAllReachable;
    forall v ensures v in SitesOf(g).tests <==> exists file :: LivesIn(g, v, file) && IsTestSourcePath(file)
      ensures v in SitesOf(g).production <==> exists file :: LivesIn(g, v, file) && IsProductionSource(file)
    {
      SitesAre(g, v);
    }
  }
}
