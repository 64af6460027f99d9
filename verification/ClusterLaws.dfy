/** Clustering loses no commit, finds the runs, and does not depend on the order of its input. */
module ClusterLaws {
  import opened Words
  import opened Options
  import opened Text
  import opened Sorting
  import opened Gathering
  import opened Clusters

  // ----- every commit is in exactly one cluster -----

  function Held<K(!new)>(h: CommitFacts -> multiset<K>): Group -> multiset<K> {
    (g: Group) => Gather(g.members, h)
  }

  lemma {:induction false} ExtendHolds<K(!new)>(groups: seq<Group>, key: Key, members: seq<CommitFacts>,
                                                h: CommitFacts -> multiset<K>)
    ensures Gather(Extend(groups, key, members), Held(h)) == Gather(groups, Held(h)) + Gather(members, h)
  {
    hide Gather;
    GatherOneMore(groups, Group(key, members), Held(h));
    if groups == [] {
      assert groups + [Group(key, members)] == [Group(key, members)];
      GatherNothing<Group, K>(Held(h));
    } else {
      var n := |groups| - 1;
      var last := groups[n];
      assert groups == groups[..n] + [last];
      GatherOneMore(groups[..n], last, Held(h));
      GatherOneMore(groups[..n], Group(key, last.members + members), Held(h));
      GatherJoins(last.members, members, h);
      if last.key != key && !KeyLess(last.key, key) {
        ExtendHolds(groups[..n], key, members, h);
        GatherOneMore(Extend(groups[..n], key, members), last, Held(h));
      }
    }
  }

  lemma GatherNothing<T, K>(f: T -> multiset<K>)
    ensures Gather([], f) == multiset{}
  {
  }

  lemma {:induction false} ExtendAllHolds<K(!new)>(groups: seq<Group>, more: seq<Group>, h: CommitFacts -> multiset<K>)
    ensures Gather(ExtendAll(groups, more), Held(h)) == Gather(groups, Held(h)) + Gather(more, Held(h))
  {
    hide Extend, Gather;
    if more == [] {
      GatherNothing<Group, K>(Held(h));
    } else {
      var n := |more| - 1;
      assert more == more[..n] + [more[n]];
      ExtendAllHolds(groups, more[..n], h);
      ExtendHolds(ExtendAll(groups, more[..n]), more[n].key, more[n].members, h);
      GatherOneMore(more[..n], more[n], Held(h));
    }
  }

  lemma {:induction false} KeyedHold<K(!new)>(commits: seq<CommitFacts>, h: CommitFacts -> multiset<K>)
    ensures Gather(KeyedGroups(commits), Held(h)) + Gather(Unkeyed(commits), h) == Gather(commits, h)
  {
    hide Extend, StructuralKey, Gather;
    if commits == [] {
      GatherNothing<Group, K>(Held(h));
      GatherNothing(h);
    } else {
      var n := |commits| - 1;
      var c := commits[n];
      assert commits == commits[..n] + [c];
      KeyedHold(commits[..n], h);
      GatherOneMore(commits[..n], c, h);
      if StructuralKey(c).Some? {
        assert Unkeyed(commits) == Unkeyed(commits[..n]);
        ExtendHolds(KeyedGroups(commits[..n]), StructuralKey(c).value, [c], h);
      } else {
        assert Unkeyed(commits) == Unkeyed(commits[..n]) + [c];
        GatherOneMore(Unkeyed(commits[..n]), c, h);
      }
    }
  }

  function RunHeld<K(!new)>(h: CommitFacts -> multiset<K>): seq<CommitFacts> -> multiset<K> {
    (run: seq<CommitFacts>) => Gather(run, h)
  }

  lemma {:induction false} RunsHold<K(!new)>(s: seq<CommitFacts>, h: CommitFacts -> multiset<K>)
    ensures Gather(Runs(s), RunHeld(h)) == Gather(s, h)
  {
    hide Gather, Follows;
    if s == [] {
      GatherNothing<seq<CommitFacts>, K>(RunHeld(h));
      GatherNothing(h);
    } else {
      var n := |s| - 1;
      var before := Runs(s[..n]);
      assert s == s[..n] + [s[n]];
      RunsHold(s[..n], h);
      GatherOneMore(s[..n], s[n], h);
      GatherOneMore(before, [s[n]], RunHeld(h));
      if before != [] && Follows(before[|before| - 1], s[n]) {
        var init, last := before[..|before| - 1], before[|before| - 1];
        assert before == init + [last];
        GatherOneMore(last, s[n], h);
        GatherOneMore(init, last, RunHeld(h));
        GatherOneMore(init, last + [s[n]], RunHeld(h));
      }
    }
  }

  lemma {:induction false} RunsSplit<K(!new)>(runs: seq<seq<CommitFacts>>, h: CommitFacts -> multiset<K>)
    ensures Gather(AdjacencyGroups(runs), Held(h)) + Gather(Singletons(runs), h) == Gather(runs, RunHeld(h))
  {
    hide Gather;
    if runs == [] {
      GatherNothing<Group, K>(Held(h));
      GatherNothing<seq<CommitFacts>, K>(RunHeld(h));
      GatherNothing(h);
    } else {
      var n := |runs| - 1;
      var run := runs[n];
      assert runs == runs[..n] + [run];
      RunsSplit(runs[..n], h);
      GatherOneMore(runs[..n], run, RunHeld(h));
      if |run| > 1 {
        assert Singletons(runs) == Singletons(runs[..n]);
        GatherOneMore(AdjacencyGroups(runs[..n]), Group(Key(CommitAdjacency, run[0].id), run), Held(h));
      } else {
        assert AdjacencyGroups(runs) == AdjacencyGroups(runs[..n]);
        GatherJoins(Singletons(runs[..n]), run, h);
      }
    }
  }

  lemma {:induction false} TokensHold<K(!new)>(s: seq<CommitFacts>, h: CommitFacts -> multiset<K>)
    ensures Gather(TokenGroups(s), Held(h)) + Gather(Tokenless(s), h) == Gather(s, h)
  {
    hide Extend, SignificantToken, Gather;
    if s == [] {
      GatherNothing<Group, K>(Held(h));
      GatherNothing(h);
    } else {
      var n := |s| - 1;
      var c := s[n];
      assert s == s[..n] + [c];
      TokensHold(s[..n], h);
      GatherOneMore(s[..n], c, h);
      if SignificantToken(c.title).Some? {
        assert Tokenless(s) == Tokenless(s[..n]);
        ExtendHolds(TokenGroups(s[..n]), Key(TitleSimilarity, SignificantToken(c.title).value), [c], h);
      } else {
        GatherOneMore(Tokenless(s[..n]), c, h);
      }
    }
  }

  lemma {:induction false} TokensSplit<K(!new)>(tokens: seq<Group>, h: CommitFacts -> multiset<K>)
    ensures Gather(Shared(tokens), Held(h)) + Gather(Unshared(tokens), h) == Gather(tokens, Held(h))
  {
    hide Gather;
    if tokens == [] {
      GatherNothing<Group, K>(Held(h));
      GatherNothing(h);
    } else {
      var n := |tokens| - 1;
      assert tokens == tokens[..n] + [tokens[n]];
      TokensSplit(tokens[..n], h);
      GatherOneMore(tokens[..n], tokens[n], Held(h));
      if |tokens[n].members| > 1 {
        assert Unshared(tokens) == Unshared(tokens[..n]);
        GatherOneMore(Shared(tokens[..n]), tokens[n], Held(h));
      } else {
        assert Shared(tokens) == Shared(tokens[..n]);
        GatherJoins(Unshared(tokens[..n]), tokens[n].members, h);
      }
    }
  }

  lemma {:induction false} AloneHold<K(!new)>(s: seq<CommitFacts>, h: CommitFacts -> multiset<K>)
    ensures Gather(Alone(s), Held(h)) == Gather(s, h)
  {
    hide Gather;
    if s == [] {
      GatherNothing<Group, K>(Held(h));
      GatherNothing(h);
    } else {
      var n := |s| - 1;
      var g := Group(Key(Unclustered, s[n].id), [s[n]]);
      assert s == s[..n] + [s[n]] && Alone(s) == Alone(s[..n]) + [g];
      AloneHold(s[..n], h);
      GatherOneMore(s[..n], s[n], h);
      GatherOneMore(Alone(s[..n]), g, Held(h));
    }
  }

  lemma RemainderHolds<K(!new)>(sorted: seq<CommitFacts>, h: CommitFacts -> multiset<K>)
    ensures Gather(AdjacencyThenTitles(sorted), Held(h)) == Gather(sorted, h)
  {
    hide Runs, Singletons, AdjacencyGroups, TokenGroups, Tokenless, Shared, Unshared, Alone, Gather;
    var runs := Runs(sorted);
    var singles := Singletons(runs);
    var tokens := TokenGroups(singles);
    RunsHold(sorted, h);
    RunsSplit(runs, h);
    TokensHold(singles, h);
    TokensSplit(tokens, h);
    var alone := Tokenless(singles) + Unshared(tokens);
    AloneHold(alone, h);
    GatherJoins(Tokenless(singles), Unshared(tokens), h);
    GatherJoins(AdjacencyGroups(runs), Shared(tokens), Held(h));
    GatherJoins(AdjacencyGroups(runs) + Shared(tokens), Alone(alone), Held(h));
  }

  /** The groups hold every commit exactly once. */
  lemma GroupsHold<K(!new)>(commits: seq<CommitFacts>, h: CommitFacts -> multiset<K>)
    ensures Gather(Groups(commits), Held(h)) == Gather(commits, h)
  {
    hide KeyedGroups, Unkeyed, AdjacencyThenTitles, ExtendAll;
    var sorted := Sort(Unkeyed(commits), IndexLess);
    KeyedHold(commits, h);
    GatherSort(Unkeyed(commits), IndexLess, h);
    RemainderHolds(sorted, h);
    ExtendAllHolds(KeyedGroups(commits), AdjacencyThenTitles(sorted), h);
  }

  function CommitId(c: CommitFacts): multiset<string> {
    multiset{c.id}
  }

  function ClusterIds(c: CapabilityCluster): multiset<string> {
    multiset(c.commits)
  }

  lemma {:induction false} IdsOfMembers(members: seq<CommitFacts>)
    ensures multiset(Mapped(members, IdOf)) == Gather(members, CommitId)
  {
    if members != [] {
      var n := |members| - 1;
      IdsOfMembers(members[..n]);
      assert Mapped(members, IdOf) == Mapped(members[..n], IdOf) + [members[n].id];
    }
  }

  lemma {:induction false} BuiltIds(groups: seq<Group>)
    ensures var out := seq(|groups|, i requires 0 <= i < |groups| => Build(groups[i]));
            Gather(out, ClusterIds) == Gather(groups, Held(CommitId))
  {
    hide SortedSet, FirstCapability, Flatten;
    if groups != [] {
      var n := |groups| - 1;
      BuiltIds(groups[..n]);
      IdsOfMembers(groups[n].members);
      var out := seq(|groups|, i requires 0 <= i < |groups| => Build(groups[i]));
      assert out[..n] == seq(n, i requires 0 <= i < n => Build(groups[..n][i]));
    }
  }

  /** The commit ids of all clusters together are the commit ids given. */
  lemma CommitsAreConserved(commits: seq<CommitFacts>)
    ensures Gather(Clustered(commits), ClusterIds) == Gather(commits, CommitId)
  {
    hide Groups, Build;
    GroupsHold(commits, CommitId);
    BuiltIds(Groups(commits));
  }
}
