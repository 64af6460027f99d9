/** The key of a commit and the lists of a cluster, read off the fields of the commits. */
module ClusterFields {
  import opened Words
  import opened Options
  import opened Text
  import opened Sorting
  import opened Strings
  import opened TextLaws
  import opened Clusters
  import opened ClusterOrder

  /** The structural bases, strongest first. */
  const STRENGTH := [OpenSpecCapability, LinkedIssue, PublicApi, Community, Component, DependencyNeighborhood]

  /** The commit carries this evidence. */
  predicate Offers(c: CommitFacts, basis: Basis, name: string) {
    match basis
    case OpenSpecCapability => c.capability == Some(name)
    case LinkedIssue => c.issue == Some(name)
    case PublicApi => name in c.endpoints
    case Community => c.community == Some(name)
    case Component => name in c.components
    case DependencyNeighborhood => name in c.neighbors
    case _ => false
  }

  ghost predicate OffersNone(c: CommitFacts, k: nat)
    requires k < 6
  {
    forall name :: !Offers(c, STRENGTH[k], name)
  }

  /** The key is the first name of the strongest evidence. */
  ghost predicate IsStrongest(c: CommitFacts, key: Key, k: nat) {
    && k < 6 && key.basis == STRENGTH[k] && Offers(c, key.basis, key.name)
    && (forall name :: Offers(c, key.basis, name) ==> name == key.name || Before(key.name, name))
    && (forall j :: 0 <= j < k ==> OffersNone(c, j))
  }

  lemma NothingOffered(c: CommitFacts)
    ensures OffersNone(c, 0) <==> c.capability.None?
    ensures OffersNone(c, 1) <==> c.issue.None?
    ensures OffersNone(c, 2) <==> c.endpoints == []
    ensures OffersNone(c, 3) <==> c.community.None?
    ensures OffersNone(c, 4) <==> c.components == []
    ensures OffersNone(c, 5) <==> c.neighbors == []
  {
    assert c.capability.Some? ==> Offers(c, STRENGTH[0], c.capability.value);
    assert c.issue.Some? ==> Offers(c, STRENGTH[1], c.issue.value);
    assert c.endpoints != [] ==> Offers(c, STRENGTH[2], c.endpoints[0]);
    assert c.community.Some? ==> Offers(c, STRENGTH[3], c.community.value);
    assert c.components != [] ==> Offers(c, STRENGTH[4], c.components[0]);
    assert c.neighbors != [] ==> Offers(c, STRENGTH[5], c.neighbors[0]);
  }

  /** A commit has a structural key exactly when it carries evidence, and then the first name of the strongest. */
  lemma StructuralKeyExactlyWhen(c: CommitFacts)
    ensures StructuralKey(c).None? <==> forall k :: 0 <= k < 6 ==> OffersNone(c, k)
    ensures StructuralKey(c).Some? ==> exists k :: IsStrongest(c, StructuralKey(c).value, k)
  {
    NothingOffered(c);
    SmallestIsFirst(c.endpoints);
    SmallestIsFirst(c.components);
    SmallestIsFirst(c.neighbors);
    hide OffersNone, Smallest, Before;
    if StructuralKey(c).Some? {
      var k := if c.capability.Some? then 0 else if c.issue.Some? then 1 else if c.endpoints != [] then 2
               else if c.community.Some? then 3 else if c.components != [] then 4 else 5;
      KeyIsStrongest(c, StructuralKey(c).value, k);
    }
  }

  lemma SmallestIsFirst(values: seq<string>)
    ensures Smallest(values).None? <==> values == []
    ensures Smallest(values).Some? ==>
              Smallest(values).value in values
              && forall x :: x in values ==> x == Smallest(values).value || Before(Smallest(values).value, x)
  {}

  lemma KeyIsStrongest(c: CommitFacts, key: Key, k: nat)
    requires k < 6 && key.basis == STRENGTH[k] && Offers(c, key.basis, key.name)
    requires forall name :: Offers(c, key.basis, name) ==> name == key.name || Before(key.name, name)
    requires forall j :: 0 <= j < k ==> OffersNone(c, j)
    ensures IsStrongest(c, key, k)
  {}

  // ----- the lists of a cluster -----

  lemma SortedSetLists(values: seq<string>)
    ensures Ascending(SortedSet(values), Text.Before) && forall x :: x in SortedSet(values) <==> x in values
  {
    BeforeIsStrictOrder();
    SortSorts(values, Text.Before);
    SameElements(Sort(values, Text.Before), values);
    DedupAscends(Sort(values, Text.Before), Text.Before);
    DedupKeepsElements(Sort(values, Text.Before));
    hide Text.Before;
  }

  /** A cluster lists every endpoint, component and title of its members, in order and once, and every id. */
  lemma ClusterLists(g: Group, x: string)
    ensures var k := Build(g);
            && k.id == g.key && multiset(k.commits) == multiset(Mapped(g.members, IdOf))
            && Ascending(k.endpoints, Text.Before) && Ascending(k.components, Text.Before)
            && Ascending(k.titleHints, Text.Before)
            && (x in k.endpoints <==> exists c :: c in g.members && x in c.endpoints)
            && (x in k.components <==> exists c :: c in g.members && x in c.components)
            && (x in k.titleHints <==> exists c :: c in g.members && c.title == x)
  {
    SortedSetLists(Flatten(Mapped(g.members, EndpointsOf)));
    SortedSetLists(Flatten(Mapped(g.members, ComponentsOf)));
    SortedSetLists(Mapped(g.members, TitleOf));
    hide SortedSet, Text.Before, Flatten, Mapped;
    FlattenedHas(g.members, EndpointsOf, x);
    FlattenedHas(g.members, ComponentsOf, x);
    MappedHas(g.members, TitleOf, x);
    assert forall c: CommitFacts :: EndpointsOf(c) == c.endpoints;
    assert forall c: CommitFacts :: ComponentsOf(c) == c.components;
    assert forall c: CommitFacts :: TitleOf(c) == c.title;
  }

  /** Its capability is that of the first member that names one. */
  lemma {:induction false} CapabilityIsFirst(members: seq<CommitFacts>)
    ensures FirstCapability(members).None? <==> forall c :: c in members ==> c.capability.None?
    ensures FirstCapability(members).Some? ==>
              exists i :: 0 <= i < |members| && members[i].capability == FirstCapability(members)
                          && forall j :: 0 <= j < i ==> members[j].capability.None?
  {
    if members != [] {
      var rest := members[1..];
      CapabilityIsFirst(rest);
      assert forall c :: c in members <==> c == members[0] || c in rest;
      if members[0].capability.None? && FirstCapability(rest).Some? {
        var i :| 0 <= i < |rest| && rest[i].capability == FirstCapability(rest)
                 && forall j :: 0 <= j < i ==> rest[j].capability.None?;
        assert members[i + 1] == rest[i];
        assert forall j :: 0 <= j < i + 1 ==> j == 0 || members[j] == rest[j - 1];
      }
    }
  }

  const ORDER := STRENGTH + [CommitAdjacency, TitleSimilarity, Unclustered]

  ghost predicate Stronger(a: Basis, b: Basis) {
    exists p, q :: 0 <= p < q < 9 && ORDER[p] == a && ORDER[q] == b
  }

  lemma RankIsPlace(b: Basis)
    ensures Rank(b) < 9 && ORDER[Rank(b)] == b
  {
    assert ORDER[0] == OpenSpecCapability && ORDER[1] == LinkedIssue && ORDER[2] == PublicApi;
    assert ORDER[3] == Community && ORDER[4] == Component && ORDER[5] == DependencyNeighborhood;
  }

  lemma KeyLessIsStronger(a: Key, b: Key)
    requires KeyLess(a, b)
    ensures Stronger(a.basis, b.basis) || (a.basis == b.basis && Before(a.name, b.name))
  {
    RankIsPlace(a.basis);
    RankIsPlace(b.basis);
    hide Before, Rank;
  }

  /** Clusters stand by the strength of their evidence, then by name, and no key has two. */
  lemma ClustersAreOrdered(commits: seq<CommitFacts>, i: nat, j: nat)
    requires i < j < |Clustered(commits)|
    ensures var a, b := Clustered(commits)[i].id, Clustered(commits)[j].id;
            Stronger(a.basis, b.basis) || (a.basis == b.basis && Before(a.name, b.name))
  {
    var groups := Groups(commits);
    OrderedGroups(commits);
    hide Groups, Before, Stronger, KeyLess, SortedSet, FirstCapability, Flatten, Mapped;
    assert Keys(groups)[i] == groups[i].key && Keys(groups)[j] == groups[j].key;
    KeyLessIsStronger(groups[i].key, groups[j].key);
  }

  // ----- the word of a title -----

  /** The text with its words taken out leaves only characters that are neither letters nor digits. */
  ghost predicate IsSplit(s: string, words: seq<string>, marks: seq<char>) {
    && |words| == |marks| + 1
    && (forall w, c :: w in words && c in w ==> IsAlphanumeric(c))
    && (forall c :: c in marks ==> !IsAlphanumeric(c))
    && s == Together(words, marks)
  }

  function Together(words: seq<string>, marks: seq<char>): string
    requires |words| == |marks| + 1
  {
    if marks == [] then words[0]
    else Together(words[..|words| - 1], marks[..|marks| - 1]) + [marks[|marks| - 1]] + words[|words| - 1]
  }

  /** The words of a title stand between its marks, in order. */
  lemma {:induction false} WordsStandBetweenMarks(s: string) returns (marks: seq<char>)
    ensures IsSplit(s, WordsOf(s), marks)
  {
    if s == [] {
      marks := [];
    } else {
      var n := |s| - 1;
      var words := WordsOf(s[..n]);
      var before := WordsStandBetweenMarks(s[..n]);
      marks := if IsAlphanumeric(s[n]) then before else before + [s[n]];
      OneMoreCharacter(s[..n], s[n], words, before);
      assert s == s[..n] + [s[n]];
      hide IsSplit, IsAlphanumeric;
    }
  }

  lemma OneMoreCharacter(s: string, c: char, words: seq<string>, marks: seq<char>)
    requires IsSplit(s, words, marks)
    ensures var last := |words| - 1;
            if IsAlphanumeric(c) then IsSplit(s + [c], words[..last] + [words[last] + [c]], marks)
            else IsSplit(s + [c], words + [""], marks + [c])
  {
    var last := |words| - 1;
    var longer, more := words[..last] + [words[last] + [c]], words + [""];
    assert words[last] in words;
    assert longer[..last] == words[..last];
    assert more[..|words|] == words && (marks + [c])[..|marks|] == marks;
    assert forall w :: w in longer ==> w in words || w == words[last] + [c];
    hide IsAlphanumeric;
  }

  ghost predicate IsTelling(word: string) {
    |word| >= 4 && word !in NOISE
  }

  ghost predicate IsToken(words: seq<string>, token: string, i: int) {
    && 0 <= i < |words| && IsLower(words[i], token) && IsTelling(token)
    && forall j, low :: 0 <= j < i && IsLower(words[j], low) ==> !IsTelling(low)
  }

  /** The token of a title is its first word that is long enough and no noise, in small letters. */
  lemma {:induction false} TokenExactlyWhen(words: seq<string>, token: string)
    ensures FirstSignificant(words) == Some(token) <==>
              exists i :: IsToken(words, token, i)
  {
    if words != [] {
      var rest := words[1..];
      TokenExactlyWhen(rest, token);
      forall low ensures IsLower(words[0], low) <==> low == Lower(words[0]) {
        LowerExactlyWhen(words[0], low);
      }
      hide IsLower, IsTelling, Lower;
      var low := Lower(words[0]);
      assert FirstSignificant(words) == if IsTelling(low) then Some(low) else FirstSignificant(rest);
      if i :| IsToken(rest, token, i) && !IsTelling(low) {
        assert IsToken(words, token, i + 1);
      }
      if i :| IsToken(words, token, i) && i > 0 {
        assert IsToken(rest, token, i - 1);
      }
      assert IsTelling(low) ==> IsToken(words, low, 0);
    }
  }
}
