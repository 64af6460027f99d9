/** Which commits share a cluster, and why the order of the input does not matter. */
module ClusterOrder {
  import opened Words
  import opened Options
  import opened Text
  import opened Sorting
  import opened Gathering
  import opened Clusters
  import opened ClusterLaws

  ghost predicate DistinctCommits(all: seq<CommitFacts>) {
    && (forall c, d :: c in all && d in all && (c.id == d.id || c.index == d.index) ==> c == d)
    && (forall i, j :: 0 <= i < j < |all| ==> all[i] != all[j])
  }

  // ----- what decides the cluster of a commit -----

  /** A commit of the list that no structure claims. */
  ghost predicate Loose(all: seq<CommitFacts>, c: CommitFacts) {
    c in all && StructuralKey(c).None?
  }

  ghost predicate LooseAt(all: seq<CommitFacts>, index: int) {
    exists c :: Loose(all, c) && c.index == index
  }

  ghost predicate Neighboured(all: seq<CommitFacts>, c: CommitFacts) {
    LooseAt(all, c.index - 1) || LooseAt(all, c.index + 1)
  }

  /** a starts the maximal run of consecutive loose indices that c lies in. */
  ghost predicate IsAnchor(all: seq<CommitFacts>, c: CommitFacts, a: CommitFacts) {
    && Loose(all, a) && a.index <= c.index
    && !LooseAt(all, a.index - 1)
    && forall i :: a.index <= i <= c.index ==> LooseAt(all, i)
  }

  ghost predicate Single(all: seq<CommitFacts>, c: CommitFacts) {
    Loose(all, c) && !Neighboured(all, c)
  }

  ghost predicate HasTwin(all: seq<CommitFacts>, c: CommitFacts) {
    exists d :: Single(all, d) && d != c && SignificantToken(d.title) == SignificantToken(c.title)
  }

  ghost predicate HasAdjacencyKey(all: seq<CommitFacts>, c: CommitFacts, key: Key) {
    key.basis == CommitAdjacency && exists a :: IsAnchor(all, c, a) && key.name == a.id
  }

  /** The key of a commit depends only on which commits there are. */
  ghost predicate HasKey(all: seq<CommitFacts>, c: CommitFacts, key: Key) {
    c in all &&
    if StructuralKey(c).Some? then StructuralKey(c) == Some(key)
    else if Neighboured(all, c) then HasAdjacencyKey(all, c, key)
    else if SignificantToken(c.title).Some? && HasTwin(all, c)
        then key == Key(TitleSimilarity, SignificantToken(c.title).value)
    else key == Key(Unclustered, c.id)
  }

  // ----- membership in ordered maps -----

  ghost predicate In(groups: seq<Group>, key: Key, c: CommitFacts) {
    exists g :: g in groups && g.key == key && c in g.members
  }

  lemma InOneMore(groups: seq<Group>, g: Group, key: Key, c: CommitFacts)
    ensures In(groups + [g], key, c) <==> In(groups, key, c) || (g.key == key && c in g.members)
  {
    assert g in groups + [g];
    assert forall x :: x in groups + [g] <==> x in groups || x == g;
  }

  lemma {:induction false} ExtendIn(groups: seq<Group>, at: Key, members: seq<CommitFacts>, key: Key, c: CommitFacts)
    ensures In(Extend(groups, at, members), key, c) <==> In(groups, key, c) || (key == at && c in members)
  {
    hide In;
    InOneMore(groups, Group(at, members), key, c);
    if groups == [] {
      assert groups + [Group(at, members)] == [Group(at, members)];
    } else {
      var n := |groups| - 1;
      var last := groups[n];
      assert groups == groups[..n] + [last];
      InOneMore(groups[..n], last, key, c);
      InOneMore(groups[..n], Group(at, last.members + members), key, c);
      ExtendIn(groups[..n], at, members, key, c);
      InOneMore(Extend(groups[..n], at, members), last, key, c);
    }
  }

  lemma InJoined(a: seq<Group>, b: seq<Group>, key: Key, c: CommitFacts)
    ensures In(a + b, key, c) <==> In(a, key, c) || In(b, key, c)
  {
    assert forall x :: x in a + b <==> x in a || x in b;
  }

  lemma {:induction false} ExtendAllIn(groups: seq<Group>, more: seq<Group>, key: Key, c: CommitFacts)
    ensures In(ExtendAll(groups, more), key, c) <==> In(groups, key, c) || In(more, key, c)
  {
    hide In, Extend;
    if more == [] {
      assert groups + more == groups;
      InJoined(groups, more, key, c);
    } else {
      var n := |more| - 1;
      assert more == more[..n] + [more[n]];
      ExtendAllIn(groups, more[..n], key, c);
      ExtendIn(ExtendAll(groups, more[..n]), more[n].key, more[n].members, key, c);
      InOneMore(more[..n], more[n], key, c);
    }
  }

  lemma {:induction false} KeyedIn(commits: seq<CommitFacts>, key: Key, c: CommitFacts)
    ensures In(KeyedGroups(commits), key, c) <==> c in commits && StructuralKey(c) == Some(key)
    ensures c in Unkeyed(commits) <==> Loose(commits, c)
  {
    hide StructuralKey, Extend;
    if commits != [] {
      var n := |commits| - 1;
      var d := commits[n];
      assert commits == commits[..n] + [d];
      KeyedIn(commits[..n], key, c);
      if StructuralKey(d).Some? {
        ExtendIn(KeyedGroups(commits[..n]), StructuralKey(d).value, [d], key, c);
      }
      hide In;
    }
  }

  lemma {:induction false} TokensIn(s: seq<CommitFacts>, key: Key, c: CommitFacts)
    ensures In(TokenGroups(s), key, c) <==>
              c in s && key.basis == TitleSimilarity && SignificantToken(c.title) == Some(key.name)
    ensures c in Tokenless(s) <==> c in s && SignificantToken(c.title).None?
  {
    hide SignificantToken, Extend;
    if s != [] {
      var n := |s| - 1;
      var d := s[n];
      assert s == s[..n] + [d];
      TokensIn(s[..n], key, c);
      if SignificantToken(d.title).Some? {
        ExtendIn(TokenGroups(s[..n]), Key(TitleSimilarity, SignificantToken(d.title).value), [d], key, c);
      }
      hide In;
    }
  }

  lemma {:induction false} AloneIn(s: seq<CommitFacts>, key: Key, c: CommitFacts)
    ensures In(Alone(s), key, c) <==> c in s && key == Key(Unclustered, c.id)
  {
    if s != [] {
      var n := |s| - 1;
      var g := Group(Key(Unclustered, s[n].id), [s[n]]);
      assert s == s[..n] + [s[n]] && Alone(s) == Alone(s[..n]) + [g];
      AloneIn(s[..n], key, c);
      InOneMore(Alone(s[..n]), g, key, c);
      hide In;
    }
  }

  // ----- the order of keys -----

  function Keys(groups: seq<Group>): seq<Key> {
    seq(|groups|, i requires 0 <= i < |groups| => groups[i].key)
  }

  ghost predicate Ordered(groups: seq<Group>) {
    Ascending(Keys(groups), KeyLess) && forall g :: g in groups ==> g.members != []
  }

  lemma KeyLessIsTotal()
    ensures StrictOrder(KeyLess)
    ensures forall a, b :: a == b || KeyLess(a, b) || KeyLess(b, a)
  {
    BeforeIsStrictOrder();
    hide Before;
    assert forall a: Basis, b: Basis :: Rank(a) == Rank(b) ==> a == b;
    assert forall a, b, c :: KeyLess(a, b) && KeyLess(b, c) ==> KeyLess(a, c);
    forall a, b, c | KeyLess(a, c) && !KeyLess(a, b) ensures KeyLess(b, c) {
      assert a == b || KeyLess(b, a);
    }
  }

  lemma {:induction false} ExtendKeys(groups: seq<Group>, key: Key, members: seq<CommitFacts>, k: Key)
    ensures k in Keys(Extend(groups, key, members)) <==> k in Keys(groups) || k == key
  {
    hide KeyLess;
    if groups == [] {
      assert Keys(groups) == [] && Keys(Extend(groups, key, members)) == [key];
    } else {
      var n := |groups| - 1;
      var last := groups[n];
      ExtendKeys(groups[..n], key, members, k);
      assert Keys(groups) == Keys(groups[..n]) + [last.key];
      if last.key == key {
        assert Keys(Extend(groups, key, members)) == Keys(groups[..n]) + [key];
      } else if KeyLess(last.key, key) {
        assert Keys(Extend(groups, key, members)) == Keys(groups) + [key];
      } else {
        assert Keys(Extend(groups, key, members)) == Keys(Extend(groups[..n], key, members)) + [last.key];
      }
    }
  }

  lemma AscendingAppend(keys: seq<Key>, k: Key)
    requires Ascending(keys, KeyLess) && forall x :: x in keys ==> KeyLess(x, k)
    ensures Ascending(keys + [k], KeyLess)
  {
    hide KeyLess;
    assert forall i :: 0 <= i < |keys| ==> keys[i] in keys;
  }

  lemma {:induction false} ExtendOrdered(groups: seq<Group>, key: Key, members: seq<CommitFacts>)
    requires Ascending(Keys(groups), KeyLess)
    ensures Ascending(Keys(Extend(groups, key, members)), KeyLess)
    decreases |groups|, 1
  {
    KeyLessIsTotal();
    hide KeyLess;
    if groups == [] {
      assert Keys(groups) == [];
    } else {
      var n := |groups| - 1;
      var last := groups[n];
      var keys := Keys(groups[..n]);
      assert Keys(groups) == keys + [last.key] && Keys(groups)[n] == last.key;
      forall x | x in keys ensures KeyLess(x, last.key) {
        var i :| 0 <= i < n && keys[i] == x;
        assert Keys(groups)[i] == x;
      }
      forall i, j | 0 <= i < j < n ensures KeyLess(keys[i], keys[j]) {
        assert Keys(groups)[i] == keys[i] && Keys(groups)[j] == keys[j];
      }
      ExtendOrderedStep(groups, key, members);
    }
  }

  lemma {:induction false} ExtendOrderedStep(groups: seq<Group>, key: Key, members: seq<CommitFacts>)
    requires groups != [] && Ascending(Keys(groups), KeyLess)
    requires var n := |groups| - 1;
             Ascending(Keys(groups[..n]), KeyLess) && forall x :: x in Keys(groups[..n]) ==> KeyLess(x, groups[n].key)
    ensures Ascending(Keys(Extend(groups, key, members)), KeyLess)
    decreases |groups|, 0
  {
    KeyLessIsTotal();
    hide KeyLess;
    var n := |groups| - 1;
    var last := groups[n];
    assert Keys(groups) == Keys(groups[..n]) + [last.key];
    if last.key == key {
      assert Keys(Extend(groups, key, members)) == Keys(groups);
    } else if KeyLess(last.key, key) {
      assert Keys(Extend(groups, key, members)) == Keys(groups) + [key];
      AscendingAppend(Keys(groups), key);
    } else {
      ExtendOrdered(groups[..n], key, members);
      forall k | k in Keys(Extend(groups[..n], key, members)) ensures KeyLess(k, last.key) {
        ExtendKeys(groups[..n], key, members, k);
      }
      assert Keys(Extend(groups, key, members)) == Keys(Extend(groups[..n], key, members)) + [last.key];
      AscendingAppend(Keys(Extend(groups[..n], key, members)), last.key);
    }
  }

  lemma {:induction false} ExtendFills(groups: seq<Group>, key: Key, members: seq<CommitFacts>)
    requires members != [] && forall g :: g in groups ==> g.members != []
    ensures forall g :: g in Extend(groups, key, members) ==> g.members != []
  {
    hide KeyLess;
    if groups != [] {
      ExtendFills(groups[..|groups| - 1], key, members);
    }
  }

  lemma OrderedExtend(groups: seq<Group>, key: Key, members: seq<CommitFacts>)
    requires Ordered(groups) && members != []
    ensures Ordered(Extend(groups, key, members))
  {
    ExtendOrdered(groups, key, members);
    ExtendFills(groups, key, members);
  }

  lemma {:induction false} OrderedExtendAll(groups: seq<Group>, more: seq<Group>)
    requires Ordered(groups) && forall g :: g in more ==> g.members != []
    ensures Ordered(ExtendAll(groups, more))
  {
    hide Ordered, Extend;
    if more != [] {
      var n := |more| - 1;
      assert more[n] in more;
      OrderedExtendAll(groups, more[..n]);
      OrderedExtend(ExtendAll(groups, more[..n]), more[n].key, more[n].members);
    }
  }

  lemma NothingOrdered()
    ensures Ordered([])
  {
    assert Keys([]) == [];
  }

  lemma {:induction false} OrderedKeyed(commits: seq<CommitFacts>)
    ensures Ordered(KeyedGroups(commits))
  {
    hide Ordered, Extend, StructuralKey;
    if commits == [] {
      NothingOrdered();
    } else {
      var n := |commits| - 1;
      OrderedKeyed(commits[..n]);
      if StructuralKey(commits[n]).Some? {
        OrderedExtend(KeyedGroups(commits[..n]), StructuralKey(commits[n]).value, [commits[n]]);
      }
    }
  }

  lemma {:induction false} OrderedTokens(s: seq<CommitFacts>)
    ensures Ordered(TokenGroups(s))
  {
    hide Ordered, Extend, SignificantToken;
    if s == [] {
      NothingOrdered();
    } else {
      var n := |s| - 1;
      OrderedTokens(s[..n]);
      if SignificantToken(s[n].title).Some? {
        OrderedExtend(TokenGroups(s[..n]), Key(TitleSimilarity, SignificantToken(s[n].title).value), [s[n]]);
      }
    }
  }

  /** A key has one entry. */
  lemma OneEntry(groups: seq<Group>, g: Group, c: CommitFacts)
    requires Ordered(groups) && g in groups
    ensures In(groups, g.key, c) <==> c in g.members
  {
    KeyLessIsTotal();
    hide KeyLess;
    forall x | x in groups && x.key == g.key ensures x == g {
      var i, j :| 0 <= i < |groups| && 0 <= j < |groups| && groups[i] == x && groups[j] == g;
      assert Keys(groups)[i] == Keys(groups)[j] == g.key;
    }
  }

  // ----- runs -----

  lemma IndexLessIsStrict()
    ensures StrictOrder(IndexLess)
  {
  }

  ghost predicate IndicesDiffer(s: seq<CommitFacts>) {
    forall i, j :: 0 <= i < j < |s| ==> s[i].index != s[j].index
  }

  lemma OneMoreIndex(s: seq<CommitFacts>, c: CommitFacts)
    requires IndicesDiffer(s) && forall x :: x in s ==> x.index != c.index
    ensures IndicesDiffer(s + [c])
  {
    assert forall i :: 0 <= i < |s| ==> s[i] in s;
  }

  lemma LastCommitDiffers(commits: seq<CommitFacts>)
    requires commits != [] && DistinctCommits(commits)
    ensures var n := |commits| - 1;
            DistinctCommits(commits[..n]) && forall x :: x in commits[..n] ==> x.index != commits[n].index
  {
    var n := |commits| - 1;
    forall x | x in commits[..n] ensures x.index != commits[n].index {
      var k :| 0 <= k < n && commits[k] == x;
      assert commits[k] != commits[n];
    }
  }

  lemma {:induction false} UnkeyedAreComparable(commits: seq<CommitFacts>)
    requires DistinctCommits(commits)
    ensures IndicesDiffer(Unkeyed(commits))
  {
    hide StructuralKey, DistinctCommits;
    if commits != [] {
      var n := |commits| - 1;
      var before := Unkeyed(commits[..n]);
      LastCommitDiffers(commits);
      UnkeyedAreComparable(commits[..n]);
      forall x | x in before ensures x.index != commits[n].index {
        KeyedIn(commits[..n], Key(Unclustered, ""), x);
      }
      OneMoreIndex(before, commits[n]);
      assert before + [] == before;
      hide IndicesDiffer;
    }
  }

  /** The loose commits in ascending order of index. */
  ghost predicate IsSortedLoose(all: seq<CommitFacts>, s: seq<CommitFacts>) {
    Ascending(s, IndexLess) && forall c :: c in s <==> Loose(all, c)
  }

  lemma SortedLoose(commits: seq<CommitFacts>)
    requires DistinctCommits(commits)
    ensures IsSortedLoose(commits, Sort(Unkeyed(commits), IndexLess))
  {
    var u := Unkeyed(commits);
    IndexLessIsStrict();
    UnkeyedAreComparable(commits);
    assert forall i, j :: 0 <= i < j < |u| ==> IndexLess(u[i], u[j]) || IndexLess(u[j], u[i]);
    SortAscends(u, IndexLess);
    SameElements(Sort(u, IndexLess), u);
    hide StructuralKey, Unkeyed, DistinctCommits;
    forall c ensures c in u <==> Loose(commits, c) {
      KeyedIn(commits, Key(Unclustered, ""), c);
    }
  }

  ghost predicate HasIndex(s: seq<CommitFacts>, index: int) {
    exists c :: c in s && c.index == index
  }

  /** Consecutive commits of s that cannot be extended in either direction. */
  ghost predicate RunFits(s: seq<CommitFacts>, run: seq<CommitFacts>) {
    && run != []
    && (forall i :: 0 <= i < |run| ==> run[i] in s && run[i].index == run[0].index + i)
    && !HasIndex(s, run[0].index - 1)
    && !HasIndex(s, run[|run| - 1].index + 1)
  }

  lemma RunStillFits(s: seq<CommitFacts>, c: CommitFacts, run: seq<CommitFacts>)
    requires RunFits(s, run) && c.index != run[|run| - 1].index + 1 && c.index >= run[0].index
    ensures RunFits(s + [c], run)
  {
    assert forall x :: x in s + [c] <==> x in s || x == c;
    assert HasIndex(s + [c], run[0].index - 1) ==> HasIndex(s, run[0].index - 1);
    assert HasIndex(s + [c], run[|run| - 1].index + 1) ==> HasIndex(s, run[|run| - 1].index + 1);
  }

  /** Below a bound, whatever it is. */
  ghost predicate AllBelow(s: seq<CommitFacts>, c: CommitFacts) {
    forall x :: x in s ==> x.index < c.index
  }

  lemma RunGrows(s: seq<CommitFacts>, run: seq<CommitFacts>, c: CommitFacts)
    requires RunFits(s, run) && AllBelow(s, c) && c.index == run[|run| - 1].index + 1
    ensures RunFits(s + [c], run + [c])
  {
    assert forall x :: x in s + [c] <==> x in s || x == c;
    assert HasIndex(s + [c], run[0].index - 1) ==> HasIndex(s, run[0].index - 1);
    assert !HasIndex(s + [c], c.index + 1);
    var more := run + [c];
    assert forall i :: 0 <= i < |run| ==> more[i] == run[i];
  }

  lemma RunStarts(s: seq<CommitFacts>, c: CommitFacts)
    requires AllBelow(s, c) && !HasIndex(s, c.index - 1)
    ensures RunFits(s + [c], [c])
  {
    assert forall x :: x in s + [c] <==> x in s || x == c;
    assert HasIndex(s + [c], c.index - 1) ==> HasIndex(s, c.index - 1);
    assert !HasIndex(s + [c], c.index + 1);
  }

  /** All runs fit; the last one ends where the list ends, the others end before. */
  ghost predicate RunsFit(s: seq<CommitFacts>, runs: seq<seq<CommitFacts>>) {
    && (forall k :: 0 <= k < |runs| ==> RunFits(s, runs[k]))
    && (s == [] <==> runs == [])
    && (runs != [] ==> Ends(runs[|runs| - 1]) == s[|s| - 1].index)
    && (forall k :: 0 <= k < |runs| - 1 ==> Ends(runs[k]) < s[|s| - 1].index)
  }

  function Ends(run: seq<CommitFacts>): int {
    if run == [] then 0 else run[|run| - 1].index
  }

  lemma {:induction false} RunsAreFit(s: seq<CommitFacts>)
    requires Ascending(s, IndexLess)
    ensures RunsFit(s, Runs(s))
  {
    if s != [] {
      var n := |s| - 1;
      var before, c := Runs(s[..n]), s[n];
      assert s == s[..n] + [c];
      RunsAreFit(s[..n]);
      assert AllBelow(s[..n], c);
      hide AllBelow, RunsFit, Follows;
      if before != [] && Follows(before[|before| - 1], c) {
        RunsFitOn(s[..n], before, c);
      } else {
        RunsFitAnew(s[..n], before, c);
      }
    }
  }

  lemma RunsFitOn(s: seq<CommitFacts>, runs: seq<seq<CommitFacts>>, c: CommitFacts)
    requires RunsFit(s, runs) && AllBelow(s, c) && Ascending(s, IndexLess) && runs != [] && Follows(runs[|runs| - 1], c)
    ensures RunsFit(s + [c], runs[..|runs| - 1] + [runs[|runs| - 1] + [c]])
  {
    OldRunsFit(s, runs, c);
    LastRunFits(s, runs, c);
    assert s[|s| - 1] in s && s[|s| - 1].index < c.index;
    hide RunFits, Follows, AllBelow;
  }

  lemma RunsFitAnew(s: seq<CommitFacts>, runs: seq<seq<CommitFacts>>, c: CommitFacts)
    requires RunsFit(s, runs) && AllBelow(s, c) && Ascending(s, IndexLess)
    requires (runs == [] || !Follows(runs[|runs| - 1], c))
    ensures RunsFit(s + [c], runs + [[c]])
  {
    OldRunsFit(s, runs, c);
    LastRunFits(s, runs, c);
    assert s != [] ==> s[|s| - 1] in s && s[|s| - 1].index < c.index;
    hide RunFits, Follows, AllBelow;
  }

  lemma OldRunsFit(s: seq<CommitFacts>, runs: seq<seq<CommitFacts>>, c: CommitFacts)
    requires RunsFit(s, runs) && AllBelow(s, c)
    ensures forall k :: 0 <= k < |runs| - 1 ==> RunFits(s + [c], runs[k])
    ensures runs != [] && !Follows(runs[|runs| - 1], c) ==> RunFits(s + [c], runs[|runs| - 1])
  {
    forall k | 0 <= k < |runs| && (k < |runs| - 1 || !Follows(runs[k], c)) ensures RunFits(s + [c], runs[k]) {
      assert RunFits(s, runs[k]);
      assert runs[k][0] in s && runs[k][|runs[k]| - 1] in s && s[|s| - 1] in s;
      RunStillFits(s, c, runs[k]);
    }
  }

  lemma LastRunFits(s: seq<CommitFacts>, runs: seq<seq<CommitFacts>>, c: CommitFacts)
    requires RunsFit(s, runs) && AllBelow(s, c) && Ascending(s, IndexLess)
    ensures runs != [] && Follows(runs[|runs| - 1], c) ==> RunFits(s + [c], runs[|runs| - 1] + [c])
    ensures runs == [] || !Follows(runs[|runs| - 1], c) ==> RunFits(s + [c], [c])
  {
    if runs != [] && Follows(runs[|runs| - 1], c) {
      assert RunFits(s, runs[|runs| - 1]) && s[|s| - 1] in s;
      RunGrows(s, runs[|runs| - 1], c);
    } else {
      assert s != [] ==> RunFits(s, runs[|runs| - 1]) && s[|s| - 1] in s;
      forall x | x in s ensures x.index != c.index - 1 {
        var i :| 0 <= i < |s| && s[i] == x;
        assert i < |s| - 1 ==> IndexLess(s[i], s[|s| - 1]);
      }
      RunStarts(s, c);
    }
  }

  // ----- adjacency -----

  ghost predicate InRun(runs: seq<seq<CommitFacts>>, run: seq<CommitFacts>, c: CommitFacts) {
    run in runs && c in run
  }

  lemma {:induction false} RunsCover(s: seq<CommitFacts>, c: CommitFacts) returns (run: seq<CommitFacts>)
    requires c in s
    ensures InRun(Runs(s), run, c)
  {
    hide Follows;
    var n := |s| - 1;
    var before := Runs(s[..n]);
    var grows := before != [] && Follows(before[|before| - 1], s[n]);
    assert s == s[..n] + [s[n]];
    if c in s[..n] {
      run := RunsCover(s[..n], c);
      if grows && run == before[|before| - 1] {
        run := run + [s[n]];
        assert Runs(s)[|before| - 1] == run;
      } else {
        var i :| 0 <= i < |before| && before[i] == run;
        assert Runs(s)[i] == run;
      }
    } else {
      run := if grows then before[|before| - 1] + [s[n]] else [s[n]];
      assert Runs(s)[|Runs(s)| - 1] == run;
    }
  }

  lemma {:induction false} AdjacencyInRuns(runs: seq<seq<CommitFacts>>, key: Key, c: CommitFacts)
    ensures In(AdjacencyGroups(runs), key, c) <==>
              exists run: seq<CommitFacts> :: InRun(runs, run, c) && |run| > 1 && key == Key(CommitAdjacency, run[0].id)
    ensures c in Singletons(runs) <==> exists run: seq<CommitFacts> :: InRun(runs, run, c) && |run| <= 1
  {
    if runs != [] {
      var n := |runs| - 1;
      var run := runs[n];
      assert runs == runs[..n] + [run];
      AdjacencyInRuns(runs[..n], key, c);
      assert forall x :: InRun(runs, x, c) <==> InRun(runs[..n], x, c) || (x == run && c in run);
      if |run| > 1 {
        InOneMore(AdjacencyGroups(runs[..n]), Group(Key(CommitAdjacency, run[0].id), run), key, c);
      } else {
        assert AdjacencyGroups(runs) == AdjacencyGroups(runs[..n]);
      }
      hide In, InRun;
    }
  }

  lemma LooseIndices(all: seq<CommitFacts>, s: seq<CommitFacts>, index: int)
    requires IsSortedLoose(all, s)
    ensures LooseAt(all, index) <==> HasIndex(s, index)
  {
    hide Loose;
  }

  /** What lying in a run says about a commit. */
  lemma RunMember(all: seq<CommitFacts>, s: seq<CommitFacts>, run: seq<CommitFacts>, c: CommitFacts)
    requires IsSortedLoose(all, s) && RunFits(s, run) && c in run
    ensures Loose(all, c) && IsAnchor(all, c, run[0])
    ensures Neighboured(all, c) <==> |run| > 1
  {
    var k :| 0 <= k < |run| && run[k] == c;
    hide Loose, LooseAt;
    LooseIndices(all, s, run[0].index - 1);
    LooseIndices(all, s, c.index - 1);
    LooseIndices(all, s, c.index + 1);
    assert Loose(all, c) && Loose(all, run[0]);
    forall i | run[0].index <= i <= c.index ensures LooseAt(all, i) {
      LooseIndices(all, s, i);
      assert run[i - run[0].index] in s;
    }
    if |run| > 1 {
      var d := run[if k > 0 then k - 1 else 1];
      assert d in s;
    }
  }

  lemma AnchorIsUnique(all: seq<CommitFacts>, c: CommitFacts, a: CommitFacts, b: CommitFacts)
    requires DistinctCommits(all) && IsAnchor(all, c, a) && IsAnchor(all, c, b)
    ensures a == b
  {
    hide LooseAt;
    assert a.index < b.index ==> LooseAt(all, b.index - 1);
    assert b.index < a.index ==> LooseAt(all, a.index - 1);
  }

  /** The adjacency groups are the maximal runs of at least two consecutive loose indices. */
  lemma AdjacencyIn(all: seq<CommitFacts>, s: seq<CommitFacts>, key: Key, c: CommitFacts)
    requires DistinctCommits(all) && IsSortedLoose(all, s)
    ensures In(AdjacencyGroups(Runs(s)), key, c) <==>
              Loose(all, c) && Neighboured(all, c) && HasAdjacencyKey(all, c, key)
    ensures c in Singletons(Runs(s)) <==> Single(all, c)
  {
    hide In, DistinctCommits, Loose, Neighboured, IsAnchor, Runs, RunFits, IndexLess;
    var runs := Runs(s);
    AdjacencyInRuns(runs, key, c);
    RunsAreFit(s);
    forall run: seq<CommitFacts> | InRun(runs, run, c)
      ensures Loose(all, c) && IsAnchor(all, c, run[0]) && (Neighboured(all, c) <==> |run| > 1)
      ensures HasAdjacencyKey(all, c, key) <==> key == Key(CommitAdjacency, run[0].id)
    {
      RunInside(s, runs, run);
      RunMember(all, s, run, c);
      OnlyAnchor(all, c, run[0], key);
    }
    if Loose(all, c) {
      var run := RunsCover(s, c);
    }
  }

  lemma RunInside(s: seq<CommitFacts>, runs: seq<seq<CommitFacts>>, run: seq<CommitFacts>)
    requires RunsFit(s, runs) && run in runs
    ensures RunFits(s, run) && run != []
  {
  }

  lemma OnlyAnchor(all: seq<CommitFacts>, c: CommitFacts, a: CommitFacts, key: Key)
    requires DistinctCommits(all) && IsAnchor(all, c, a)
    ensures HasAdjacencyKey(all, c, key) <==> key == Key(CommitAdjacency, a.id)
  {
    hide IsAnchor, DistinctCommits;
    forall b | IsAnchor(all, c, b) ensures b == a {
      AnchorIsUnique(all, c, a, b);
    }
  }

  // ----- no commit is listed twice -----

  function Unit(c: CommitFacts): multiset<CommitFacts> {
    multiset{c}
  }

  ghost predicate NoRepeats(s: seq<CommitFacts>) {
    forall c :: multiset(s)[c] <= 1
  }

  lemma {:induction false} UnitsAreTheList(s: seq<CommitFacts>)
    ensures Gather(s, Unit) == multiset(s)
  {
    if s != [] {
      var n := |s| - 1;
      assert s == s[..n] + [s[n]];
      UnitsAreTheList(s[..n]);
    }
  }

  lemma {:induction false} DistinctNoRepeats(s: seq<CommitFacts>)
    requires forall i, j :: 0 <= i < j < |s| ==> s[i] != s[j]
    ensures NoRepeats(s)
  {
    if s != [] {
      var n := |s| - 1;
      assert s == s[..n] + [s[n]];
      DistinctNoRepeats(s[..n]);
      assert s[n] !in s[..n];
      assert multiset(s[..n])[s[n]] == 0;
    }
  }

  lemma RepeatCounts(s: seq<CommitFacts>, i: nat, j: nat)
    requires i < j < |s| && s[i] == s[j]
    ensures multiset(s)[s[i]] > 1
  {
    assert s == s[..j] + s[j..];
    assert s[i] in s[..j] && s[j] == s[j..][0] && s[j] in s[j..];
  }

  /** In a list without repeats, having another member is having more than one. */
  lemma AnotherMember(s: seq<CommitFacts>, c: CommitFacts)
    requires NoRepeats(s) && c in s
    ensures |s| > 1 <==> exists d :: d in s && d != c
  {
    var i :| 0 <= i < |s| && s[i] == c;
    if |s| > 1 {
      var j := if i == 0 then 1 else 0;
      if s[j] == c {
        if i < j { RepeatCounts(s, i, j); } else { RepeatCounts(s, j, i); }
      }
      assert s[j] in s;
    }
  }

  lemma {:induction false} GatherHasMember<K(!new)>(groups: seq<Group>, g: Group, h: CommitFacts -> multiset<K>)
    requires g in groups
    ensures Gather(g.members, h) <= Gather(groups, Held(h))
  {
    hide Gather;
    var n := |groups| - 1;
    assert groups == groups[..n] + [groups[n]];
    GatherOneMore(groups[..n], groups[n], Held(h));
    if g != groups[n] {
      GatherHasMember(groups[..n], g, h);
    }
  }

  lemma PartNoRepeats(part: seq<CommitFacts>, s: seq<CommitFacts>)
    requires NoRepeats(s) && multiset(part) <= multiset(s)
    ensures NoRepeats(part)
  {
  }

  lemma TokenMembersDiffer(s: seq<CommitFacts>, g: Group)
    requires IndicesDiffer(s) && g in TokenGroups(Singletons(Runs(s)))
    ensures NoRepeats(g.members)
  {
    hide Gather, Runs, Singletons, AdjacencyGroups, TokenGroups, Tokenless, NoRepeats;
    var singles := Singletons(Runs(s));
    DistinctNoRepeats(s);
    RunsHold(s, Unit);
    RunsSplit(Runs(s), Unit);
    UnitsAreTheList(s);
    UnitsAreTheList(singles);
    TokensHold(singles, Unit);
    GatherHasMember(TokenGroups(singles), g, Unit);
    UnitsAreTheList(g.members);
    PartNoRepeats(g.members, s);
  }

  // ----- titles -----

  lemma {:induction false} SharedAre(tokens: seq<Group>, g: Group, c: CommitFacts)
    ensures g in Shared(tokens) <==> g in tokens && |g.members| > 1
    ensures c in Unshared(tokens) <==> exists x :: x in tokens && |x.members| <= 1 && c in x.members
  {
    if tokens != [] {
      var n := |tokens| - 1;
      assert tokens == tokens[..n] + [tokens[n]];
      SharedAre(tokens[..n], g, c);
      assert forall x :: x in tokens <==> x in tokens[..n] || x == tokens[n];
    }
  }

  ghost predicate HasCompany(groups: seq<Group>, key: Key, c: CommitFacts) {
    exists d :: In(groups, key, d) && d != c
  }

  lemma CompanyIsSize(groups: seq<Group>, g: Group, c: CommitFacts)
    requires Ordered(groups) && g in groups && c in g.members && NoRepeats(g.members)
    ensures HasCompany(groups, g.key, c) <==> |g.members| > 1
  {
    hide In, Ordered, NoRepeats;
    AnotherMember(g.members, c);
    forall d ensures In(groups, g.key, d) <==> d in g.members {
      OneEntry(groups, g, d);
    }
  }

  lemma SharedIn(tokens: seq<Group>, key: Key, c: CommitFacts)
    requires Ordered(tokens) && forall g :: g in tokens ==> NoRepeats(g.members)
    ensures In(Shared(tokens), key, c) <==> In(tokens, key, c) && HasCompany(tokens, key, c)
  {
    hide Ordered, NoRepeats, Shared, HasCompany;
    forall g | g in tokens && c in g.members ensures HasCompany(tokens, g.key, c) <==> |g.members| > 1 {
      CompanyIsSize(tokens, g, c);
    }
    forall g ensures g in Shared(tokens) <==> g in tokens && |g.members| > 1 {
      SharedAre(tokens, g, c);
    }
  }

  lemma UnsharedIn(tokens: seq<Group>, c: CommitFacts)
    requires Ordered(tokens) && forall g :: g in tokens ==> NoRepeats(g.members)
    ensures c in Unshared(tokens) <==> exists key :: In(tokens, key, c) && !HasCompany(tokens, key, c)
  {
    hide Ordered, NoRepeats, Unshared, HasCompany;
    forall g | g in tokens && c in g.members ensures HasCompany(tokens, g.key, c) <==> |g.members| > 1 {
      CompanyIsSize(tokens, g, c);
    }
    SharedAre(tokens, Group(Key(Unclustered, ""), []), c);
    if c in Unshared(tokens) {
      var x :| x in tokens && |x.members| <= 1 && c in x.members;
      assert In(tokens, x.key, c);
    }
  }

  ghost predicate HasTokenKey(all: seq<CommitFacts>, c: CommitFacts, key: Key) {
    Single(all, c) && key.basis == TitleSimilarity && SignificantToken(c.title) == Some(key.name)
  }

  lemma TokenCompany(all: seq<CommitFacts>, tokens: seq<Group>, key: Key, c: CommitFacts)
    requires forall k, d :: In(tokens, k, d) <==> HasTokenKey(all, d, k)
    ensures In(tokens, key, c) ==> (HasCompany(tokens, key, c) <==> HasTwin(all, c))
  {
    hide In, Single, SignificantToken;
    if In(tokens, key, c) {
      assert HasTokenKey(all, c, key);
      if HasTwin(all, c) {
        var d :| Single(all, d) && d != c && SignificantToken(d.title) == SignificantToken(c.title);
        assert HasTokenKey(all, d, key);
      }
      if HasCompany(tokens, key, c) {
        var d :| In(tokens, key, d) && d != c;
        assert HasTokenKey(all, d, key);
      }
    }
  }

  lemma RemainderIn(all: seq<CommitFacts>, s: seq<CommitFacts>, key: Key, c: CommitFacts)
    requires DistinctCommits(all) && IsSortedLoose(all, s)
    ensures In(AdjacencyThenTitles(s), key, c) <==> Loose(all, c) && HasKey(all, c, key)
  {
    var singles := Singletons(Runs(s));
    var tokens := TokenGroups(singles);
    var shared, rest := Shared(tokens), Tokenless(singles) + Unshared(tokens);
    AdjacencyIn(all, s, key, c);
    InJoined(AdjacencyGroups(Runs(s)), shared, key, c);
    InJoined(AdjacencyGroups(Runs(s)) + shared, Alone(rest), key, c);
    AloneIn(rest, key, c);
    TitlesIn(all, s, key, c);
    LooseHasNoStructure(all, c, key);
    hide In, DistinctCommits, IsSortedLoose, Loose, Neighboured, HasTwin, SignificantToken, StructuralKey,
         HasAdjacencyKey;
    hide Runs, Singletons, TokenGroups, Shared, Unshared, Tokenless, Alone, AdjacencyGroups;
  }

  lemma LooseHasNoStructure(all: seq<CommitFacts>, c: CommitFacts, key: Key)
    ensures Loose(all, c) ==> c in all && StructuralKey(c).None?
    ensures HasAdjacencyKey(all, c, key) ==> key.basis == CommitAdjacency
  {
    hide StructuralKey;
  }

  ghost predicate SharesToken(all: seq<CommitFacts>, c: CommitFacts) {
    SignificantToken(c.title).Some? && HasTwin(all, c)
  }

  /** What becomes of the commits that stand alone in the sequence. */
  lemma TitlesIn(all: seq<CommitFacts>, s: seq<CommitFacts>, key: Key, c: CommitFacts)
    requires DistinctCommits(all) && IsSortedLoose(all, s)
    ensures var singles := Singletons(Runs(s));
            In(Shared(TokenGroups(singles)), key, c) <==> HasTokenKey(all, c, key) && HasTwin(all, c)
    ensures var singles := Singletons(Runs(s));
            c in Tokenless(singles) + Unshared(TokenGroups(singles)) <==> Single(all, c) && !SharesToken(all, c)
  {
    var singles := Singletons(Runs(s));
    var tokens := TokenGroups(singles);
    hide In, Loose, Neighboured, SignificantToken, HasTwin, Runs, Singletons, TokenGroups, Shared, Unshared, Tokenless,
         Single, DistinctCommits;
    forall k, d ensures In(tokens, k, d) <==> HasTokenKey(all, d, k) {
      TokensIn(singles, k, d);
      AdjacencyIn(all, s, k, d);
    }
    hide HasTokenKey;
    TokensIn(singles, key, c);
    AdjacencyIn(all, s, key, c);
    TokenTitles(all, s, tokens, key, c);
    assert c in Tokenless(singles) + Unshared(tokens) <==> c in Tokenless(singles) || c in Unshared(tokens);
  }

  lemma TokenTitles(all: seq<CommitFacts>, s: seq<CommitFacts>, tokens: seq<Group>, key: Key, c: CommitFacts)
    requires IsSortedLoose(all, s) && tokens == TokenGroups(Singletons(Runs(s)))
    requires forall k, d :: In(tokens, k, d) <==> HasTokenKey(all, d, k)
    ensures In(Shared(tokens), key, c) <==> HasTokenKey(all, c, key) && HasTwin(all, c)
    ensures c in Unshared(tokens) <==> Single(all, c) && SignificantToken(c.title).Some? && !HasTwin(all, c)
  {
    hide In, Loose, SignificantToken, HasTwin, Runs, Singletons, TokenGroups, Shared, Unshared, Single, Ordered,
         NoRepeats, HasCompany, HasTokenKey;
    OrderedTokens(Singletons(Runs(s)));
    assert IndicesDiffer(s);
    forall g | g in tokens ensures NoRepeats(g.members) {
      TokenMembersDiffer(s, g);
    }
    SharedIn(tokens, key, c);
    UnsharedIn(tokens, c);
    forall k ensures In(tokens, k, c) ==> (HasCompany(tokens, k, c) <==> HasTwin(all, c)) {
      TokenCompany(all, tokens, k, c);
    }
    TokenKeyExists(all, c);
  }

  lemma TokenKeyExists(all: seq<CommitFacts>, c: CommitFacts)
    ensures (exists key :: HasTokenKey(all, c, key)) <==> Single(all, c) && SignificantToken(c.title).Some?
  {
    hide SignificantToken, Single;
    if Single(all, c) && SignificantToken(c.title).Some? {
      assert HasTokenKey(all, c, Key(TitleSimilarity, SignificantToken(c.title).value));
    }
  }

  /** A commit is grouped under exactly the key that HasKey gives it. */
  lemma GroupsIn(all: seq<CommitFacts>, key: Key, c: CommitFacts)
    requires DistinctCommits(all)
    ensures In(Groups(all), key, c) <==> HasKey(all, c, key)
  {
    hide In, DistinctCommits, IsSortedLoose, Neighboured, HasTwin, SignificantToken, StructuralKey, HasAdjacencyKey;
    hide Unkeyed, KeyedGroups, AdjacencyThenTitles, ExtendAll;
    var s := Sort(Unkeyed(all), IndexLess);
    SortedLoose(all);
    ExtendAllIn(KeyedGroups(all), AdjacencyThenTitles(s), key, c);
    KeyedIn(all, key, c);
    RemainderIn(all, s, key, c);
  }

  // ----- the order of the input -----

  lemma SameKeys(a: seq<CommitFacts>, b: seq<CommitFacts>, c: CommitFacts, key: Key)
    requires forall x :: x in a <==> x in b
    ensures HasKey(a, c, key) <==> HasKey(b, c, key)
  {
    hide StructuralKey, SignificantToken;
    assert forall x :: Loose(a, x) <==> Loose(b, x);
    hide Loose;
    assert forall i :: LooseAt(a, i) <==> LooseAt(b, i);
    hide LooseAt;
    assert forall x :: Neighboured(a, x) <==> Neighboured(b, x);
    assert forall x :: IsAnchor(a, c, x) <==> IsAnchor(b, c, x);
    hide Neighboured, IsAnchor;
    assert forall x :: Single(a, x) <==> Single(b, x);
    hide Single;
  }

  lemma FilledRemainder(s: seq<CommitFacts>, g: Group)
    requires g in AdjacencyThenTitles(s)
    ensures g.members != []
  {
    hide Runs, Singletons, TokenGroups, Shared, Unshared, Tokenless, AdjacencyGroups;
    var runs := Runs(s);
    var tokens := TokenGroups(Singletons(runs));
    SharedAre(tokens, g, CommitFacts("", "", 0, None, None, [], None, [], []));
    FilledAdjacency(runs, g);
  }

  lemma {:induction false} FilledAdjacency(runs: seq<seq<CommitFacts>>, g: Group)
    ensures g in AdjacencyGroups(runs) ==> g.members != []
  {
    if runs != [] {
      FilledAdjacency(runs[..|runs| - 1], g);
    }
  }

  lemma OrderedGroups(commits: seq<CommitFacts>)
    ensures Ordered(Groups(commits))
  {
    hide Ordered, KeyedGroups, AdjacencyThenTitles, ExtendAll;
    var s := Sort(Unkeyed(commits), IndexLess);
    OrderedKeyed(commits);
    forall g | g in AdjacencyThenTitles(s) ensures g.members != [] {
      FilledRemainder(s, g);
    }
    OrderedExtendAll(KeyedGroups(commits), AdjacencyThenTitles(s));
  }

  lemma GroupMembersDiffer(commits: seq<CommitFacts>, g: Group)
    requires DistinctCommits(commits) && g in Groups(commits)
    ensures NoRepeats(g.members)
  {
    hide Gather, Groups, NoRepeats;
    DistinctNoRepeats(commits);
    GroupsHold(commits, Unit);
    UnitsAreTheList(commits);
    GatherHasMember(Groups(commits), g, Unit);
    UnitsAreTheList(g.members);
    PartNoRepeats(g.members, commits);
  }

  lemma SortedSetSame(a: seq<string>, b: seq<string>)
    requires forall x :: x in a <==> x in b
    ensures SortedSet(a) == SortedSet(b)
  {
    hide Text.Before;
    BeforeIsStrictOrder();
    SortedSetIs(a);
    SortedSetIs(b);
    AscendingIsUnique(SortedSet(a), SortedSet(b), Text.Before);
  }

  lemma SortedSetIs(a: seq<string>)
    ensures Ascending(SortedSet(a), Text.Before) && forall x :: x in SortedSet(a) <==> x in a
  {
    hide Text.Before;
    BeforeIsStrictOrder();
    SortSorts(a, Text.Before);
    DedupAscends(Sort(a, Text.Before), Text.Before);
    DedupKeepsElements(Sort(a, Text.Before));
    SameElements(Sort(a, Text.Before), a);
  }

  lemma {:induction false} FlattenHas(lists: seq<seq<string>>, x: string)
    ensures x in Flatten(lists) <==> exists l :: l in lists && x in l
  {
    if lists != [] {
      var n := |lists| - 1;
      assert lists == lists[..n] + [lists[n]];
      FlattenHas(lists[..n], x);
      assert forall l :: l in lists <==> l in lists[..n] || l == lists[n];
    }
  }

  lemma SortedListSame(a: seq<string>, b: seq<string>)
    requires (forall x :: x in a <==> x in b)
    requires forall i, j :: 0 <= i < j < |a| ==> a[i] != a[j]
    requires forall i, j :: 0 <= i < j < |b| ==> b[i] != b[j]
    ensures Sort(a, Text.Before) == Sort(b, Text.Before)
  {
    hide Text.Before;
    BeforeIsStrictOrder();
    SortAscends(a, Text.Before);
    SortAscends(b, Text.Before);
    SameElements(Sort(a, Text.Before), a);
    SameElements(Sort(b, Text.Before), b);
    AscendingIsUnique(Sort(a, Text.Before), Sort(b, Text.Before), Text.Before);
  }

  lemma MappedHas<T(!new)>(members: seq<CommitFacts>, f: CommitFacts -> T, x: T)
    ensures x in Mapped(members, f) <==> exists c :: c in members && f(c) == x
  {
    forall c | c in members ensures f(c) in Mapped(members, f) {
      var i :| 0 <= i < |members| && members[i] == c;
      assert Mapped(members, f)[i] == f(c);
    }
  }

  lemma FlattenedHas(members: seq<CommitFacts>, f: CommitFacts -> seq<string>, x: string)
    ensures x in Flatten(Mapped(members, f)) <==> exists c :: c in members && x in f(c)
  {
    FlattenHas(Mapped(members, f), x);
    hide Flatten, Mapped;
    forall l ensures l in Mapped(members, f) <==> exists c :: c in members && f(c) == l {
      MappedHas(members, f, l);
    }
  }

  /** Two listings of the same commits. */
  ghost predicate SameCommits(a: seq<CommitFacts>, b: seq<CommitFacts>) {
    forall c :: c in a <==> c in b
  }

  lemma SameListing(a: seq<CommitFacts>, b: seq<CommitFacts>, f: CommitFacts -> seq<string>)
    requires SameCommits(a, b)
    ensures SortedSet(Flatten(Mapped(a, f))) == SortedSet(Flatten(Mapped(b, f)))
  {
    hide SortedSet, Flatten, Mapped;
    forall x ensures x in Flatten(Mapped(a, f)) <==> x in Flatten(Mapped(b, f)) {
      FlattenedHas(a, f, x);
      FlattenedHas(b, f, x);
    }
    SortedSetSame(Flatten(Mapped(a, f)), Flatten(Mapped(b, f)));
  }

  lemma SameTitles(a: seq<CommitFacts>, b: seq<CommitFacts>, f: CommitFacts -> string)
    requires SameCommits(a, b)
    ensures SortedSet(Mapped(a, f)) == SortedSet(Mapped(b, f))
  {
    hide SortedSet, Mapped;
    forall x ensures x in Mapped(a, f) <==> x in Mapped(b, f) {
      MappedHas(a, f, x);
      MappedHas(b, f, x);
    }
    SortedSetSame(Mapped(a, f), Mapped(b, f));
  }

  lemma IdsDiffer(all: seq<CommitFacts>, members: seq<CommitFacts>)
    requires DistinctCommits(all) && NoRepeats(members) && forall c :: c in members ==> c in all
    ensures var ids := Mapped(members, IdOf); forall i, j :: 0 <= i < j < |ids| ==> ids[i] != ids[j]
  {
    var ids := Mapped(members, IdOf);
    forall i, j | 0 <= i < j < |ids| ensures ids[i] != ids[j] {
      assert members[i] in members && members[j] in members;
      assert ids[i] == IdOf(members[i]) && ids[j] == IdOf(members[j]);
      if ids[i] == ids[j] {
        RepeatCounts(members, i, j);
      }
    }
  }

  lemma SameIds(all: seq<CommitFacts>, a: seq<CommitFacts>, b: seq<CommitFacts>)
    requires DistinctCommits(all) && NoRepeats(a) && NoRepeats(b) && SameCommits(a, b) && forall c :: c in a ==>
               c in all
    ensures Sort(Mapped(a, IdOf), Text.Before) == Sort(Mapped(b, IdOf), Text.Before)
  {
    hide DistinctCommits, NoRepeats, Mapped;
    IdsDiffer(all, a);
    IdsDiffer(all, b);
    forall x ensures x in Mapped(a, IdOf) <==> x in Mapped(b, IdOf) {
      MappedHas(a, IdOf, x);
      MappedHas(b, IdOf, x);
    }
    SortedListSame(Mapped(a, IdOf), Mapped(b, IdOf));
  }

  /** The capability of a cluster is the one its key names, if it is keyed by capability. */
  lemma {:induction false} CapabilityOfKey(all: seq<CommitFacts>, key: Key, members: seq<CommitFacts>)
    requires members != [] && forall c :: c in members ==> HasKey(all, c, key)
    ensures FirstCapability(members) == if key.basis == OpenSpecCapability then Some(key.name) else None
  {
    var c := members[0];
    assert c in members;
    KeyedByCapability(all, c, key);
    hide HasKey;
    if |members| > 1 {
      assert forall x :: x in members[1..] ==> x in members;
      CapabilityOfKey(all, key, members[1..]);
    } else {
      assert members[1..] == [];
    }
  }

  lemma KeyedByCapability(all: seq<CommitFacts>, c: CommitFacts, key: Key)
    requires HasKey(all, c, key)
    ensures c.capability == if key.basis == OpenSpecCapability then Some(key.name) else None
  {
    hide Smallest, SignificantToken, Neighboured, HasTwin;
  }

  lemma SameCluster(all: seq<CommitFacts>, g: Group, h: Group)
    requires DistinctCommits(all) && g.key == h.key && SameCommits(g.members, h.members) && g.members != []
    requires h.members != []
    requires NoRepeats(g.members) && NoRepeats(h.members) && forall c :: c in g.members ==> HasKey(all, c, g.key)
    ensures Build(g) == Build(h)
  {
    assert forall c :: c in g.members ==> c in all;
    hide HasKey, DistinctCommits, NoRepeats, SortedSet, Flatten, FirstCapability;
    CapabilityOfKey(all, g.key, g.members);
    CapabilityOfKey(all, g.key, h.members);
    SameIds(all, g.members, h.members);
    SameListing(g.members, h.members, EndpointsOf);
    SameListing(g.members, h.members, ComponentsOf);
    SameTitles(g.members, h.members, TitleOf);
  }

  lemma GroupIs(all: seq<CommitFacts>, g: Group, c: CommitFacts)
    requires DistinctCommits(all) && g in Groups(all)
    ensures c in g.members <==> HasKey(all, c, g.key)
  {
    hide Groups, HasKey, DistinctCommits, Ordered, In;
    OrderedGroups(all);
    OneEntry(Groups(all), g, c);
    GroupsIn(all, g.key, c);
  }

  lemma KeyIsUsed(all: seq<CommitFacts>, key: Key)
    requires DistinctCommits(all)
    ensures key in Keys(Groups(all)) <==> exists c :: HasKey(all, c, key)
  {
    hide Groups, HasKey, DistinctCommits;
    var groups := Groups(all);
    OrderedGroups(all);
    if key in Keys(groups) {
      var i :| 0 <= i < |groups| && Keys(groups)[i] == key;
      assert groups[i] in groups;
      GroupIs(all, groups[i], groups[i].members[0]);
    }
    if exists c :: HasKey(all, c, key) {
      var c :| HasKey(all, c, key);
      GroupsIn(all, key, c);
      var g :| g in groups && g.key == key;
      var i :| 0 <= i < |groups| && groups[i] == g;
      assert Keys(groups)[i] == key;
    }
  }

  lemma PermutedIsDistinct(a: seq<CommitFacts>, b: seq<CommitFacts>)
    requires DistinctCommits(a) && multiset(a) == multiset(b)
    ensures DistinctCommits(b) && forall c :: c in a <==> c in b
  {
    SameElements(a, b);
    DistinctNoRepeats(a);
    forall i, j | 0 <= i < j < |b| ensures b[i] != b[j] {
      if b[i] == b[j] { RepeatCounts(b, i, j); }
    }
  }

  /** With distinct ids and indices the clusters do not depend on the order of the commits. */
  lemma OrderDoesNotMatter(a: seq<CommitFacts>, b: seq<CommitFacts>)
    requires DistinctCommits(a) && multiset(a) == multiset(b)
    ensures Clustered(a) == Clustered(b)
  {
    PermutedIsDistinct(a, b);
    hide DistinctCommits, Groups, HasKey, KeyLess, NoRepeats;
    KeyLessIsTotal();
    OrderedGroups(a);
    OrderedGroups(b);
    forall key ensures key in Keys(Groups(a)) <==> key in Keys(Groups(b)) {
      KeyIsUsed(a, key);
      KeyIsUsed(b, key);
      forall c ensures HasKey(a, c, key) <==> HasKey(b, c, key) { SameKeys(a, b, c, key); }
    }
    AscendingIsUnique(Keys(Groups(a)), Keys(Groups(b)), KeyLess);
    assert |Groups(a)| == |Keys(Groups(a))| == |Groups(b)|;
    forall i | 0 <= i < |Groups(a)| ensures Build(Groups(a)[i]) == Build(Groups(b)[i]) {
      SameEntry(a, b, i);
    }
    hide Build;
  }

  lemma SameEntry(a: seq<CommitFacts>, b: seq<CommitFacts>, i: nat)
    requires DistinctCommits(a) && DistinctCommits(b) && (forall c :: c in a <==> c in b)
    requires i < |Groups(a)| && i < |Groups(b)| && Keys(Groups(a)) == Keys(Groups(b))
    ensures Build(Groups(a)[i]) == Build(Groups(b)[i])
  {
    hide DistinctCommits, Groups, HasKey, KeyLess, NoRepeats, Build;
    var g, h := Groups(a)[i], Groups(b)[i];
    assert g.key == Keys(Groups(a))[i] == h.key;
    OrderedGroups(a);
    OrderedGroups(b);
    forall c ensures (c in g.members <==> c in h.members) && (c in g.members <==> HasKey(a, c, g.key)) {
      GroupIs(a, g, c);
      GroupIs(b, h, c);
      SameKeys(a, b, c, g.key);
    }
    GroupMembersDiffer(a, g);
    GroupMembersDiffer(b, h);
    SameCluster(a, g, h);
  }

  /** The ids a cluster lists are those of the members of its group. */
  lemma BuiltHolds(all: seq<CommitFacts>, g: Group, c: CommitFacts)
    requires DistinctCommits(all) && g in Groups(all) && c in all
    ensures c.id in Build(g).commits <==> HasKey(all, c, g.key)
  {
    hide Groups, HasKey, Flatten, SortedSet, FirstCapability;
    SameElements(Sort(Mapped(g.members, IdOf), Text.Before), Mapped(g.members, IdOf));
    MappedHas(g.members, IdOf, c.id);
    GroupIs(all, g, c);
    forall m | m in g.members && m.id == c.id ensures m == c {
      GroupIs(all, g, m);
      KeyedIsListed(all, m, g.key);
    }
  }

  lemma KeyedIsListed(all: seq<CommitFacts>, c: CommitFacts, key: Key)
    requires HasKey(all, c, key)
    ensures c in all
  {
  }

  ghost predicate ShareAdjacency(all: seq<CommitFacts>, c: CommitFacts, d: CommitFacts) {
    exists k :: k in Clustered(all) && k.id.basis == CommitAdjacency && c.id in k.commits && d.id in k.commits
  }

  lemma SharedClusterIsAKey(all: seq<CommitFacts>, c: CommitFacts, d: CommitFacts)
    requires DistinctCommits(all) && c in all && d in all
    ensures ShareAdjacency(all, c, d) <==>
              exists key: Key :: key.basis == CommitAdjacency && HasKey(all, c, key) && HasKey(all, d, key)
  {
    hide HasKey, Groups, DistinctCommits, Build;
    var groups := Groups(all);
    if ShareAdjacency(all, c, d) {
      var k :| k in Clustered(all) && k.id.basis == CommitAdjacency && c.id in k.commits && d.id in k.commits;
      var i :| 0 <= i < |groups| && Build(groups[i]) == k;
      assert groups[i] in groups;
      BuiltHolds(all, groups[i], c);
      BuiltHolds(all, groups[i], d);
      BuiltKey(groups[i]);
    }
    if key: Key :| key.basis == CommitAdjacency && HasKey(all, c, key) && HasKey(all, d, key) {
      GroupsIn(all, key, c);
      var g :| g in groups && g.key == key && c in g.members;
      BuiltHolds(all, g, c);
      BuiltHolds(all, g, d);
      BuiltKey(g);
      var i :| 0 <= i < |groups| && groups[i] == g;
      assert Clustered(all)[i] == Build(g);
    }
  }

  lemma BuiltKey(g: Group)
    ensures Build(g).id == g.key
  {
  }

  lemma AdjacencyKeyOfLoose(all: seq<CommitFacts>, c: CommitFacts, key: Key)
    requires Loose(all, c) && key.basis == CommitAdjacency
    ensures HasKey(all, c, key) <==> Neighboured(all, c) && HasAdjacencyKey(all, c, key)
  {
  }

  /** Two commits are in one adjacency cluster exactly when every index between them is held by a loose commit. */
  lemma AdjacencyIsAMaximalRun(all: seq<CommitFacts>, c: CommitFacts, d: CommitFacts)
    requires DistinctCommits(all) && Loose(all, c) && Loose(all, d) && c.index < d.index
    ensures ShareAdjacency(all, c, d) <==> forall i :: c.index <= i <= d.index ==> LooseAt(all, i)
  {
    SharedClusterIsAKey(all, c, d);
    AdjacencyKeysShareARun(all, c, d);
    hide HasKey, HasAdjacencyKey, DistinctCommits, ShareAdjacency;
    forall key: Key | key.basis == CommitAdjacency
      ensures HasKey(all, c, key) <==> Neighboured(all, c) && HasAdjacencyKey(all, c, key)
      ensures HasKey(all, d, key) <==> Neighboured(all, d) && HasAdjacencyKey(all, d, key)
    {
      AdjacencyKeyOfLoose(all, c, key);
      AdjacencyKeyOfLoose(all, d, key);
    }
    if forall i :: c.index <= i <= d.index ==> LooseAt(all, i) {
      assert LooseAt(all, c.index + 1) && LooseAt(all, d.index - 1);
    }
    AdjacencyKeyBasis(all, c);
  }

  lemma AdjacencyKeyBasis(all: seq<CommitFacts>, c: CommitFacts)
    ensures forall key :: HasAdjacencyKey(all, c, key) ==> key.basis == CommitAdjacency
  {
  }

  /** Two loose commits have a common adjacency key exactly when every index between them is held by a loose commit. */
  lemma AdjacencyKeysShareARun(all: seq<CommitFacts>, c: CommitFacts, d: CommitFacts)
    requires DistinctCommits(all) && Loose(all, c) && Loose(all, d) && c.index < d.index
    ensures (exists key :: HasAdjacencyKey(all, c, key) && HasAdjacencyKey(all, d, key))
              <==> forall i :: c.index <= i <= d.index ==> LooseAt(all, i)
  {
    hide DistinctCommits, Loose, LooseAt;
    var s := Sort(Unkeyed(all), IndexLess);
    SortedLoose(all);
    assert c in s;
    var run := RunsCover(s, c);
    RunsAreFit(s);
    RunInside(s, Runs(s), run);
    RunMember(all, s, run, c);
    hide Runs, Unkeyed;
    var a := run[0];
    OnlyAnchor(all, c, a, Key(CommitAdjacency, a.id));
    if forall i :: c.index <= i <= d.index ==> LooseAt(all, i) {
      assert IsAnchor(all, d, a);
      OnlyAnchor(all, d, a, Key(CommitAdjacency, a.id));
    }
    if key: Key :| HasAdjacencyKey(all, c, key) && HasAdjacencyKey(all, d, key) {
      OnlyAnchor(all, c, a, key);
      var b :| IsAnchor(all, d, b) && key.name == b.id;
      SameIdSameCommit(all, a, b);
    }
  }

  lemma SameIdSameCommit(all: seq<CommitFacts>, a: CommitFacts, b: CommitFacts)
    requires DistinctCommits(all) && Loose(all, a) && Loose(all, b) && a.id == b.id
    ensures a == b
  {
  }
}
