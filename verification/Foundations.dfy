/** Machine words with the saturating operators the Rust code uses. */
module Words {
  const U32_MAX: int := 0xFFFF_FFFF
  const U64_MAX: int := 0xFFFF_FFFF_FFFF_FFFF

  type u32 = n: int | 0 <= n <= U32_MAX
  type u64 = n: int | 0 <= n <= U64_MAX
  type Byte = n: int | 0 <= n < 256

  function Clamp(n: nat): u64 {
    if n <= U64_MAX then n else U64_MAX
  }

  function SatAdd(a: u64, b: u64): u64 {
    Clamp(a + b)
  }

  function SatMul(a: u64, b: u64): u64 {
    Clamp(a * b)
  }

  function Max(a: int, b: int): int {
    if a >= b then a else b
  }

  function Min(a: int, b: int): int {
    if a <= b then a else b
  }
}

module Options {
  datatype Option<+T> = None | Some(value: T)

  datatype Result<+T, +E> = Ok(value: T) | Err(error: E)
}

module Sequences {
  lemma ConcatAssociates<T>(a: seq<T>, b: seq<T>, c: seq<T>)
    ensures a + (b + c) == a + b + c
  {
  }
}

/** The text searches the Rust code makes, on ASCII text. */
module Strings {
  function Lower(s: string): (r: string)
    ensures |r| == |s|
  {
    seq(|s|, i requires 0 <= i < |s| => if 'A' <= s[i] <= 'Z' then (s[i] as int + 32) as char else s[i])
  }

  predicate Contains(s: string, part: string) {
    exists i :: 0 <= i <= |s| && part <= s[i..]
  }

  predicate EndsWith(s: string, part: string) {
    |part| <= |s| && s[|s| - |part|..] == part
  }
}

/** Byte-lexicographic order of identifiers. */
module Text {
  predicate Before(a: string, b: string) {
    if b == [] then false
    else if a == [] then true
    else if a[0] != b[0] then a[0] < b[0]
    else Before(a[1..], b[1..])
  }

  lemma StartsAlike(a: string, b: string, n: int)
    ensures 0 < n <= |a| && n <= |b| && a[..n] == b[..n] ==> a[0] == b[0]
  {
    if 0 < n <= |a| && n <= |b| && a[..n] == b[..n] {
      assert a[0] == a[..n][0] == b[..n][0] == b[0];
    }
  }

  /** The texts agree up to n, where a ends or has the smaller character. */
  predicate SmallerAt(a: string, b: string, n: int) {
    0 <= n <= |a| && n < |b| && a[..n] == b[..n] && (n == |a| || a[n] < b[n])
  }

  /** Dictionary order: a proper prefix comes first, otherwise the first different character decides. */
  lemma {:induction false} BeforeExactlyWhen(a: string, b: string)
    ensures Before(a, b) <==> exists n :: SmallerAt(a, b, n)
  {
    if b != [] && a != [] && a[0] == b[0] {
      BeforeExactlyWhen(a[1..], b[1..]);
      if n :| SmallerAt(a[1..], b[1..], n) {
        assert a[..n + 1] == [a[0]] + a[1..][..n] && b[..n + 1] == [b[0]] + b[1..][..n];
        assert SmallerAt(a, b, n + 1);
      }
      if n :| SmallerAt(a, b, n) {
        assert n > 0;
        assert a[1..][..n - 1] == a[..n][1..] && b[1..][..n - 1] == b[..n][1..];
        assert SmallerAt(a[1..], b[1..], n - 1);
      }
    } else if b != [] && a != [] {
      if n :| SmallerAt(a, b, n) {
        StartsAlike(a, b, n);
      }
      assert SmallerAt(a, b, 0) <==> a[0] < b[0];
    } else if b != [] {
      assert SmallerAt(a, b, 0);
    }
  }

  lemma {:induction false} BeforeIrreflexive(a: string)
    ensures !Before(a, a)
  {
    if a != [] {
      BeforeIrreflexive(a[1..]);
    }
  }

  lemma {:induction false} BeforeTransitive(a: string, b: string, c: string)
    requires Before(a, b) && Before(b, c)
    ensures Before(a, c)
  {
    if a != [] && a[0] == b[0] == c[0] {
      BeforeTransitive(a[1..], b[1..], c[1..]);
    }
  }

  lemma {:induction false} BeforeTotal(a: string, b: string)
    ensures a == b || Before(a, b) || Before(b, a)
  {
    if a != [] && b != [] && a[0] == b[0] {
      BeforeTotal(a[1..], b[1..]);
      assert a == [a[0]] + a[1..] && b == [b[0]] + b[1..];
    }
  }

  lemma BeforeIsStrictOrder()
    ensures forall a :: !Before(a, a)
    ensures forall a, b, c :: Before(a, b) && Before(b, c) ==> Before(a, c)
    ensures forall a, b :: a == b || Before(a, b) || Before(b, a)
  {
    forall a { BeforeIrreflexive(a); }
    forall a, b, c | Before(a, b) && Before(b, c) { BeforeTransitive(a, b, c); }
    forall a, b { BeforeTotal(a, b); }
  }
}

/** The stable library sort, as a function of the list and its strict order. */
module Sorting {
  ghost predicate StrictOrder<T(!new)>(lt: (T, T) -> bool) {
    && (forall a :: !lt(a, a))
    && (forall a, b, c :: lt(a, b) && lt(b, c) ==> lt(a, c))
    && (forall a, b, c :: lt(a, c) ==> lt(a, b) || lt(b, c))
  }

  ghost predicate Sorted<T>(s: seq<T>, lt: (T, T) -> bool) {
    forall i, j :: 0 <= i < j < |s| ==> !lt(s[j], s[i])
  }

  ghost predicate Ascending<T>(s: seq<T>, lt: (T, T) -> bool) {
    forall i, j :: 0 <= i < j < |s| ==> lt(s[i], s[j])
  }

  function Insert<T>(x: T, s: seq<T>, lt: (T, T) -> bool): (r: seq<T>)
    ensures multiset(r) == multiset(s) + multiset{x}
    ensures |r| == |s| + 1
  {
    if s == [] then [x]
    else
      var n := |s| - 1;
      assert s == s[..n] + [s[n]];
      if lt(x, s[n]) then Insert(x, s[..n], lt) + [s[n]] else s + [x]
  }

  function Sort<T>(s: seq<T>, lt: (T, T) -> bool): (r: seq<T>)
    ensures multiset(r) == multiset(s)
    ensures |r| == |s|
  {
    if s == [] then []
    else
      var n := |s| - 1;
      assert s == s[..n] + [s[n]];
      Insert(s[n], Sort(s[..n], lt), lt)
  }

  lemma {:induction false} InsertSorted<T(!new)>(x: T, s: seq<T>, lt: (T, T) -> bool)
    requires StrictOrder(lt) && Sorted(s, lt)
    ensures Sorted(Insert(x, s, lt), lt)
  {
    if s != [] {
      var n := |s| - 1;
      if lt(x, s[n]) {
        InsertSorted(x, s[..n], lt);
        var r := Insert(x, s[..n], lt);
        forall i | 0 <= i < |r| ensures !lt(s[n], r[i]) {
          assert r[i] in multiset(r);
          if r[i] != x {
            assert r[i] in multiset(s[..n]);
            assert r[i] in s[..n];
          }
        }
      } else {
        forall i | 0 <= i < n ensures !lt(x, s[i]) {
          assert !lt(s[n], s[i]);
        }
      }
    }
  }

  lemma {:induction false} SortSorts<T(!new)>(s: seq<T>, lt: (T, T) -> bool)
    requires StrictOrder(lt)
    ensures Sorted(Sort(s, lt), lt)
  {
    if s != [] {
      var n := |s| - 1;
      SortSorts(s[..n], lt);
      InsertSorted(s[n], Sort(s[..n], lt), lt);
    }
  }

  lemma {:induction false} InsertAscending<T(!new)>(x: T, s: seq<T>, lt: (T, T) -> bool)
    requires StrictOrder(lt) && Ascending(s, lt)
    requires forall y :: y in s ==> lt(x, y) || lt(y, x)
    ensures Ascending(Insert(x, s, lt), lt)
  {
    if s != [] {
      var n := |s| - 1;
      if lt(x, s[n]) {
        InsertAscending(x, s[..n], lt);
        var r := Insert(x, s[..n], lt);
        forall i | 0 <= i < |r| ensures lt(r[i], s[n]) {
          assert r[i] in multiset(r);
          if r[i] != x {
            assert r[i] in multiset(s[..n]);
            assert r[i] in s[..n];
          }
        }
      } else {
        assert s[n] in s;
      }
    }
  }

  /** Sorting a list whose elements are pairwise comparable leaves no ties. */
  lemma {:induction false} SortAscends<T(!new)>(s: seq<T>, lt: (T, T) -> bool)
    requires StrictOrder(lt)
    requires forall i, j :: 0 <= i < j < |s| ==> lt(s[i], s[j]) || lt(s[j], s[i])
    ensures Ascending(Sort(s, lt), lt)
  {
    if s != [] {
      var n := |s| - 1;
      SortAscends(s[..n], lt);
      SameElements(Sort(s[..n], lt), s[..n]);
      forall y | y in Sort(s[..n], lt) ensures lt(s[n], y) || lt(y, s[n]) {
        assert y in s[..n];
      }
      InsertAscending(s[n], Sort(s[..n], lt), lt);
    }
  }

  lemma SameElements<T>(a: seq<T>, b: seq<T>)
    requires multiset(a) == multiset(b)
    ensures forall x :: x in a <==> x in b
  {
    forall x ensures x in a <==> x in b {
      assert x in a <==> x in multiset(a);
      assert x in b <==> x in multiset(b);
    }
  }

  /** A strictly ascending list is determined by its elements. */
  lemma {:induction false} AscendingIsUnique<T(!new)>(a: seq<T>, b: seq<T>, lt: (T, T) -> bool)
    requires StrictOrder(lt) && Ascending(a, lt) && Ascending(b, lt)
    requires forall x :: x in a <==> x in b
    ensures a == b
  {
    assert |b| > 0 ==> b[0] in b;
    if a != [] {
      assert a[0] in b;
      assert b[0] in a;
      assert a[0] == b[0];
      forall x ensures x in a[1..] <==> x in b[1..] {
        if x in a[1..] { assert x in a && lt(a[0], x); assert x in b; assert x != b[0]; }
        if x in b[1..] { assert x in b && lt(b[0], x); assert x in a; assert x != a[0]; }
      }
      AscendingIsUnique(a[1..], b[1..], lt);
      assert a == [a[0]] + a[1..] && b == [b[0]] + b[1..];
    }
  }

  /** Removing consecutive repetitions. */
  function Dedup<T(==)>(s: seq<T>): seq<T> {
    if s == [] then []
    else
      var n := |s| - 1;
      if n > 0 && s[n - 1] == s[n] then Dedup(s[..n]) else Dedup(s[..n]) + [s[n]]
  }

  lemma {:induction false} DedupKeepsElements<T>(s: seq<T>)
    ensures forall x :: x in Dedup(s) <==> x in s
    ensures s != [] ==> Dedup(s) != [] && Dedup(s)[|Dedup(s)| - 1] == s[|s| - 1]
  {
    if s != [] {
      var n := |s| - 1;
      DedupKeepsElements(s[..n]);
      assert s == s[..n] + [s[n]];
      assert n > 0 ==> s[..n][n - 1] == s[n - 1];
    }
  }

  lemma {:induction false} DedupAscends<T(!new)>(s: seq<T>, lt: (T, T) -> bool)
    requires StrictOrder(lt) && Sorted(s, lt) && forall a, b :: a == b || lt(a, b) || lt(b, a)
    ensures Ascending(Dedup(s), lt)
  {
    if s != [] {
      var n := |s| - 1;
      var before := Dedup(s[..n]);
      DedupAscends(s[..n], lt);
      DedupKeepsElements(s[..n]);
      if !(n > 0 && s[n - 1] == s[n]) {
        forall i | 0 <= i < |before| ensures lt(before[i], s[n]) {
          assert before[i] in before;
          BelowLast(s, lt, before[i]);
        }
      }
    }
  }

  lemma BelowLast<T(!new)>(s: seq<T>, lt: (T, T) -> bool, x: T)
    requires StrictOrder(lt) && Sorted(s, lt) && forall a, b :: a == b || lt(a, b) || lt(b, a)
    requires |s| > 1 && x in s[..|s| - 1] && s[|s| - 2] != s[|s| - 1]
    ensures lt(x, s[|s| - 1])
  {
    var n := |s| - 1;
    var i :| 0 <= i < n && s[i] == x;
    assert !lt(s[n], s[n - 1]) && lt(s[n - 1], s[n]);
    assert i < n - 1 ==> !lt(s[n - 1], s[i]);
  }
}

/** Sums over a list that do not depend on its order. */
module Gathering {
  import opened Sorting

  function Gather<T, K>(s: seq<T>, f: T -> multiset<K>): multiset<K> {
    if s == [] then multiset{} else Gather(s[..|s| - 1], f) + f(s[|s| - 1])
  }

  lemma {:induction false} GatherJoins<T, K>(a: seq<T>, b: seq<T>, f: T -> multiset<K>)
    ensures Gather(a + b, f) == Gather(a, f) + Gather(b, f)
  {
    if b == [] {
      assert a + b == a;
    } else {
      var n := |b| - 1;
      assert (a + b)[..|a + b| - 1] == a + b[..n];
      GatherJoins(a, b[..n], f);
    }
  }

  lemma GatherOneMore<T, K>(s: seq<T>, x: T, f: T -> multiset<K>)
    ensures Gather(s + [x], f) == Gather(s, f) + f(x)
    ensures Gather([x], f) == f(x)
  {
    assert (s + [x])[..|s|] == s && [x][..0] == [];
  }

  lemma {:induction false} GatherInsert<T, K>(x: T, s: seq<T>, lt: (T, T) -> bool, f: T -> multiset<K>)
    ensures Gather(Insert(x, s, lt), f) == Gather(s, f) + f(x)
  {
    if s != [] {
      var n := |s| - 1;
      if lt(x, s[n]) {
        GatherInsert(x, s[..n], lt, f);
        assert Insert(x, s, lt)[..|s|] == Insert(x, s[..n], lt);
      } else {
        assert (s + [x])[..|s|] == s;
      }
    }
  }

  lemma {:induction false} GatherSort<T, K>(s: seq<T>, lt: (T, T) -> bool, f: T -> multiset<K>)
    ensures Gather(Sort(s, lt), f) == Gather(s, f)
  {
    if s != [] {
      var n := |s| - 1;
      GatherSort(s[..n], lt, f);
      GatherInsert(s[n], Sort(s[..n], lt), lt, f);
    }
  }
}

/** Sorted sets of strings, read out as lists. */
module Listings {
  import opened Text
  import opened Sorting

  /** The members of a set in ascending order. */
  method Listing(s: set<string>) returns (items: seq<string>)
    ensures Ascending(items, Text.Before)
    ensures forall v :: v in items <==> v in s
    ensures |items| == |s|
  {
    items := [];
    var rest := s;
    BeforeIsStrictOrder();
    while rest != {}
      invariant rest <= s && |items| + |rest| == |s|
      invariant forall v :: v in items <==> v in s - rest
      invariant Ascending(items, Text.Before)
      decreases rest
    {
      var v :| v in rest;
      InsertAscending(v, items, Text.Before);
      ghost var before := items;
      items := Insert(v, items, Text.Before);
      rest := rest - {v};
      assert multiset(items) == multiset(before + [v]);
      SameElements(items, before + [v]);
    }
  }
}

/** Parts of a list, by the positions they come from. */
module Selections {
  /** The positions between two bounds that pass a test, in order. */
  ghost predicate Picks(ks: seq<nat>, from: nat, to: nat, test: nat -> bool) {
    && (forall i, j :: 0 <= i < j < |ks| ==> ks[i] < ks[j])
    && (forall k :: k in ks <==> from <= k < to && test(k))
  }

  predicate Within(ks: seq<nat>, n: nat) {
    forall j :: 0 <= j < |ks| ==> ks[j] < n
  }

  function Chosen<T>(items: seq<T>, ks: seq<nat>): seq<T>
    requires Within(ks, |items|)
  {
    seq(|ks|, j requires 0 <= j < |ks| => items[ks[j]])
  }

  lemma PicksNone(at: nat, to: nat, test: nat -> bool)
    requires to <= at
    ensures Picks([], at, to, test)
  {
  }

  lemma PicksOneMore(ks: seq<nat>, at: nat, to: nat, test: nat -> bool)
    requires Picks(ks, at + 1, to, test) && at < to
    ensures Picks(if test(at) then [at] + ks else ks, at, to, test)
  {
    var more := if test(at) then [at] + ks else ks;
    assert forall j :: 0 <= j < |ks| ==> ks[j] in ks;
    assert forall k :: k in [at] + ks <==> k == at || k in ks;
  }

  lemma ChosenOneMore<T>(items: seq<T>, ks: seq<nat>, at: nat)
    requires Within(ks, |items|) && at < |items|
    ensures Within([at] + ks, |items|) && Chosen(items, [at] + ks) == [items[at]] + Chosen(items, ks)
  {
  }
}
