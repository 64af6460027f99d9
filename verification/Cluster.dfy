/** Capability clusters of a commit sequence. */
module Clusters {
  import opened Words
  import opened Options
  import opened Text
  import opened Sorting
  import opened Strings

  /** Why commits belong together, strongest evidence first. */
  datatype Basis = OpenSpecCapability | LinkedIssue | PublicApi | Community | Component | DependencyNeighborhood
                 | CommitAdjacency | TitleSimilarity | Unclustered

  datatype CommitFacts = CommitFacts(
    id: string, title: string, index: u32, capability: Option<string>, issue: Option<string>, endpoints: seq<string>,
    community: Option<string>, components: seq<string>, neighbors: seq<string>)

  datatype Key = Key(basis: Basis, name: string)

  /** An entry of the ordered map from keys to commits. */
  datatype Group = Group(key: Key, members: seq<CommitFacts>)

  datatype CapabilityCluster = CapabilityCluster(
    id: Key, commits: seq<string>, capability: Option<string>, endpoints: seq<string>, components: seq<string>,
    titleHints: seq<string>)

  const NOISE := ["add", "adds", "added", "fix", "fixes", "fixed", "update", "updates", "chore", "feat",
                  "refactor", "remove", "removes", "removed", "test", "tests", "wip", "the", "and", "for",
                  "with", "into", "from", "that", "this", "when", "then"]

  function Rank(b: Basis): nat {
    match b
    case OpenSpecCapability => 0
    case LinkedIssue => 1
    case PublicApi => 2
    case Community => 3
    case Component => 4
    case DependencyNeighborhood => 5
    case CommitAdjacency => 6
    case TitleSimilarity => 7
    case Unclustered => 8
  }

  predicate KeyLess(a: Key, b: Key) {
    Rank(a.basis) < Rank(b.basis) || (a.basis == b.basis && Before(a.name, b.name))
  }

  // ----- keys of single commits -----

  function Smallest(values: seq<string>): (r: Option<string>)
    ensures r.None? <==> values == []
    ensures r.Some? ==> r.value in values && forall v :: v in values ==> v == r.value || Before(r.value, v)
  {
    BeforeIsStrictOrder();
    if values == [] then None
    else
      var n := |values| - 1;
      var before := Smallest(values[..n]);
      assert values == values[..n] + [values[n]];
      if before.Some? && !Before(values[n], before.value) then before else Some(values[n])
  }

  function StructuralKey(c: CommitFacts): Option<Key> {
    if c.capability.Some? then Some(Key(OpenSpecCapability, c.capability.value))
    else if c.issue.Some? then Some(Key(LinkedIssue, c.issue.value))
    else if Smallest(c.endpoints).Some? then Some(Key(PublicApi, Smallest(c.endpoints).value))
    else if c.community.Some? then Some(Key(Community, c.community.value))
    else if Smallest(c.components).Some? then Some(Key(Component, Smallest(c.components).value))
    else if Smallest(c.neighbors).Some? then Some(Key(DependencyNeighborhood, Smallest(c.neighbors).value))
    else None
  }

  predicate IsAlphanumeric(c: char) {
    'a' <= c <= 'z' || 'A' <= c <= 'Z' || '0' <= c <= '9'
  }

  /** The pieces between characters that are neither letters nor digits. */
  function WordsOf(s: string): (ws: seq<string>)
    ensures ws != []
  {
    if s == [] then [""]
    else
      var n := |s| - 1;
      var ws := WordsOf(s[..n]);
      if IsAlphanumeric(s[n]) then ws[..|ws| - 1] + [ws[|ws| - 1] + [s[n]]] else ws + [""]
  }

  function FirstSignificant(words: seq<string>): Option<string> {
    if words == [] then None
    else
      var word := Lower(words[0]);
      if |word| >= 4 && word !in NOISE then Some(word) else FirstSignificant(words[1..])
  }

  function SignificantToken(title: string): Option<string> {
    FirstSignificant(WordsOf(title))
  }

  // ----- the ordered map -----

  /** Appends members to the entry of a key, which is created where it belongs. */
  function Extend(groups: seq<Group>, key: Key, members: seq<CommitFacts>): seq<Group> {
    if groups == [] then [Group(key, members)]
    else
      var n := |groups| - 1;
      var last := groups[n];
      if last.key == key then groups[..n] + [Group(key, last.members + members)]
      else if KeyLess(last.key, key) then groups + [Group(key, members)]
      else Extend(groups[..n], key, members) + [last]
  }

  function ExtendAll(groups: seq<Group>, more: seq<Group>): seq<Group> {
    if more == [] then groups
    else
      var n := |more| - 1;
      Extend(ExtendAll(groups, more[..n]), more[n].key, more[n].members)
  }

  // ----- the grouping -----

  function KeyedGroups(commits: seq<CommitFacts>): seq<Group> {
    if commits == [] then []
    else
      var c := commits[|commits| - 1];
      var before := KeyedGroups(commits[..|commits| - 1]);
      if StructuralKey(c).Some? then Extend(before, StructuralKey(c).value, [c]) else before
  }

  function Unkeyed(commits: seq<CommitFacts>): seq<CommitFacts> {
    if commits == [] then []
    else
      var c := commits[|commits| - 1];
      Unkeyed(commits[..|commits| - 1]) + if StructuralKey(c).None? then [c] else []
  }

  predicate IndexLess(a: CommitFacts, b: CommitFacts) {
    a.index < b.index
  }

  predicate Follows(run: seq<CommitFacts>, c: CommitFacts) {
    run != [] && c.index == if run[|run| - 1].index == U32_MAX then U32_MAX else run[|run| - 1].index + 1
  }

  /** Runs of consecutive indices. */
  function Runs(s: seq<CommitFacts>): seq<seq<CommitFacts>> {
    if s == [] then []
    else
      var n := |s| - 1;
      var before := Runs(s[..n]);
      if before != [] && Follows(before[|before| - 1], s[n])
      then before[..|before| - 1] + [before[|before| - 1] + [s[n]]]
      else before + [[s[n]]]
  }

  function AdjacencyGroups(runs: seq<seq<CommitFacts>>): seq<Group> {
    if runs == [] then []
    else
      var run := runs[|runs| - 1];
      AdjacencyGroups(runs[..|runs| - 1]) + if |run| > 1 then [Group(Key(CommitAdjacency, run[0].id), run)] else []
  }

  function Singletons(runs: seq<seq<CommitFacts>>): seq<CommitFacts> {
    if runs == [] then []
    else
      var run := runs[|runs| - 1];
      Singletons(runs[..|runs| - 1]) + if |run| > 1 then [] else run
  }

  function TokenGroups(s: seq<CommitFacts>): seq<Group> {
    if s == [] then []
    else
      var c := s[|s| - 1];
      var before := TokenGroups(s[..|s| - 1]);
      if SignificantToken(c.title).Some? then Extend(before, Key(TitleSimilarity, SignificantToken(c.title).value), [c])
          else before
  }

  function Tokenless(s: seq<CommitFacts>): seq<CommitFacts> {
    if s == [] then []
    else
      var c := s[|s| - 1];
      Tokenless(s[..|s| - 1]) + if SignificantToken(c.title).None? then [c] else []
  }

  function Shared(groups: seq<Group>): seq<Group> {
    if groups == [] then []
    else
      var g := groups[|groups| - 1];
      Shared(groups[..|groups| - 1]) + if |g.members| > 1 then [g] else []
  }

  function Unshared(groups: seq<Group>): seq<CommitFacts> {
    if groups == [] then []
    else
      var g := groups[|groups| - 1];
      Unshared(groups[..|groups| - 1]) + if |g.members| > 1 then [] else g.members
  }

  function Alone(s: seq<CommitFacts>): seq<Group> {
    seq(|s|, i requires 0 <= i < |s| => Group(Key(Unclustered, s[i].id), [s[i]]))
  }

  /** The structureless remainder, by adjacency and then by title wording. */
  function AdjacencyThenTitles(sorted: seq<CommitFacts>): seq<Group> {
    var runs := Runs(sorted);
    var singles := Singletons(runs);
    var tokens := TokenGroups(singles);
    AdjacencyGroups(runs) + Shared(tokens) + Alone(Tokenless(singles) + Unshared(tokens))
  }

  function Groups(commits: seq<CommitFacts>): seq<Group> {
    ExtendAll(KeyedGroups(commits), AdjacencyThenTitles(Sort(Unkeyed(commits), IndexLess)))
  }

  // ----- one cluster -----

  function FirstCapability(members: seq<CommitFacts>): Option<string> {
    if members == [] then None
    else if members[0].capability.Some? then members[0].capability
    else FirstCapability(members[1..])
  }

  function Flatten(lists: seq<seq<string>>): seq<string> {
    if lists == [] then [] else Flatten(lists[..|lists| - 1]) + lists[|lists| - 1]
  }

  function SortedSet(values: seq<string>): seq<string> {
    Dedup(Sort(values, Text.Before))
  }

  function IdOf(c: CommitFacts): string {
    c.id
  }

  function TitleOf(c: CommitFacts): string {
    c.title
  }

  function EndpointsOf(c: CommitFacts): seq<string> {
    c.endpoints
  }

  function ComponentsOf(c: CommitFacts): seq<string> {
    c.components
  }

  function Mapped<T>(members: seq<CommitFacts>, f: CommitFacts -> T): (r: seq<T>)
    ensures |r| == |members|
  {
    seq(|members|, i requires 0 <= i < |members| => f(members[i]))
  }

  function Build(g: Group): CapabilityCluster {
    CapabilityCluster(g.key, Sort(Mapped(g.members, IdOf), Text.Before), FirstCapability(g.members),
                      SortedSet(Flatten(Mapped(g.members, EndpointsOf))),
                      SortedSet(Flatten(Mapped(g.members, ComponentsOf))),
                      SortedSet(Mapped(g.members, TitleOf)))
  }

  function Clustered(commits: seq<CommitFacts>): seq<CapabilityCluster> {
    var groups := Groups(commits);
    seq(|groups|, i requires 0 <= i < |groups| => Build(groups[i]))
  }

  // ----- the operation -----

  method ByStructure(commits: seq<CommitFacts>) returns (groups: seq<Group>, unkeyed: seq<CommitFacts>)
    ensures groups == KeyedGroups(commits) && unkeyed == Unkeyed(commits)
  {
    hide StructuralKey, Extend;
    groups, unkeyed := [], [];
    for i := 0 to |commits|
      invariant groups == KeyedGroups(commits[..i]) && unkeyed == Unkeyed(commits[..i])
    {
      assert commits[..i + 1][..i] == commits[..i];
      var key := StructuralKey(commits[i]);
      if key.Some? {
        groups := Extend(groups, key.value, [commits[i]]);
      } else {
        unkeyed := unkeyed + [commits[i]];
      }
    }
    assert commits[..|commits|] == commits;
  }

  method FindRuns(sorted: seq<CommitFacts>) returns (runs: seq<seq<CommitFacts>>)
    ensures runs == Runs(sorted)
  {
    hide Follows;
    runs := [];
    for i := 0 to |sorted|
      invariant runs == Runs(sorted[..i])
    {
      assert sorted[..i + 1][..i] == sorted[..i];
      if runs != [] && Follows(runs[|runs| - 1], sorted[i]) {
        runs := runs[..|runs| - 1] + [runs[|runs| - 1] + [sorted[i]]];
      } else {
        runs := runs + [[sorted[i]]];
      }
    }
    assert sorted[..|sorted|] == sorted;
  }

  method SplitRuns(runs: seq<seq<CommitFacts>>) returns (adjacent: seq<Group>, singles: seq<CommitFacts>)
    ensures adjacent == AdjacencyGroups(runs) && singles == Singletons(runs)
  {
    adjacent, singles := [], [];
    for i := 0 to |runs|
      invariant adjacent == AdjacencyGroups(runs[..i]) && singles == Singletons(runs[..i])
    {
      assert runs[..i + 1][..i] == runs[..i];
      if |runs[i]| > 1 {
        adjacent := adjacent + [Group(Key(CommitAdjacency, runs[i][0].id), runs[i])];
      } else {
        singles := singles + runs[i];
      }
    }
    assert runs[..|runs|] == runs;
  }

  method ByToken(singles: seq<CommitFacts>) returns (tokens: seq<Group>, alone: seq<CommitFacts>)
    ensures tokens == TokenGroups(singles) && alone == Tokenless(singles)
  {
    hide SignificantToken, Extend;
    tokens, alone := [], [];
    for i := 0 to |singles|
      invariant tokens == TokenGroups(singles[..i]) && alone == Tokenless(singles[..i])
    {
      assert singles[..i + 1][..i] == singles[..i];
      var token := SignificantToken(singles[i].title);
      if token.Some? {
        tokens := Extend(tokens, Key(TitleSimilarity, token.value), [singles[i]]);
      } else {
        alone := alone + [singles[i]];
      }
    }
    assert singles[..|singles|] == singles;
  }

  method SplitTokens(tokens: seq<Group>) returns (shared: seq<Group>, unshared: seq<CommitFacts>)
    ensures shared == Shared(tokens) && unshared == Unshared(tokens)
  {
    shared, unshared := [], [];
    for i := 0 to |tokens|
      invariant shared == Shared(tokens[..i]) && unshared == Unshared(tokens[..i])
    {
      assert tokens[..i + 1][..i] == tokens[..i];
      if |tokens[i].members| > 1 {
        shared := shared + [tokens[i]];
      } else {
        unshared := unshared + tokens[i].members;
      }
    }
    assert tokens[..|tokens|] == tokens;
  }

  method Remainder(sorted: seq<CommitFacts>) returns (more: seq<Group>)
    ensures more == AdjacencyThenTitles(sorted)
  {
    hide Runs, Singletons, AdjacencyGroups, TokenGroups, Tokenless, Shared, Unshared;
    var runs := FindRuns(sorted);
    var adjacent, singles := SplitRuns(runs);
    var tokens, alone := ByToken(singles);
    var shared, unshared := SplitTokens(tokens);
    more := adjacent + shared + Alone(alone + unshared);
  }

  method ExtendEach(keyed: seq<Group>, more: seq<Group>) returns (groups: seq<Group>)
    ensures groups == ExtendAll(keyed, more)
  {
    hide Extend;
    groups := keyed;
    for i := 0 to |more|
      invariant groups == ExtendAll(keyed, more[..i])
    {
      assert more[..i + 1][..i] == more[..i];
      groups := Extend(groups, more[i].key, more[i].members);
    }
    assert more[..|more|] == more;
  }

  method Cluster(commits: seq<CommitFacts>) returns (out: seq<CapabilityCluster>)
    ensures out == Clustered(commits)
  {
    hide Build, ExtendAll, KeyedGroups, Unkeyed, AdjacencyThenTitles;
    var keyed, unkeyed := ByStructure(commits);
    var more := Remainder(Sort(unkeyed, IndexLess));
    var groups := ExtendEach(keyed, more);
    out := [];
    for i := 0 to |groups|
      invariant out == seq(i, k requires 0 <= k < i => Build(groups[k]))
    {
      out := out + [Build(groups[i])];
    }
  }
}
