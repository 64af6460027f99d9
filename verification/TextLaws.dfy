/** What the text searches find, said by how the text is put together. */
module TextLaws {
  import opened Strings
  import opened Decimal

  ghost predicate Holds(s: string, part: string) {
    exists a, b :: s == a + part + b
  }

  ghost predicate Ends(s: string, part: string) {
    exists a :: s == a + part
  }

  ghost predicate Begins(s: string, part: string) {
    exists b :: s == part + b
  }

  lemma ContainsExactlyWhen(s: string, part: string)
    ensures Contains(s, part) <==> Holds(s, part)
  {
    if Contains(s, part) {
      var i :| 0 <= i <= |s| && part <= s[i..];
      assert s[i..] == part + s[i + |part|..];
      assert s == s[..i] + part + s[i + |part|..];
    }
    if a, b :| s == a + part + b {
      assert s[|a|..] == part + b;
    }
  }

  lemma EndsWithExactlyWhen(s: string, part: string)
    ensures EndsWith(s, part) <==> Ends(s, part)
  {
    if EndsWith(s, part) {
      assert s == s[..|s| - |part|] + part;
    }
  }

  lemma StartsWithExactlyWhen(s: string, part: string)
    ensures part <= s <==> Begins(s, part)
  {
    if part <= s {
      assert s == part + s[|part|..];
    }
  }

  // ----- letters -----

  /** The same letters, none of them a capital. */
  ghost predicate IsLower(s: string, low: string) {
    && |low| == |s|
    && forall i :: 0 <= i < |s| ==>
         !('A' <= low[i] <= 'Z')
         && (low[i] == s[i] || ('A' <= s[i] <= 'Z' && low[i] as int == s[i] as int + 32))
         && ('a' <= low[i] <= 'z' || low[i] == s[i])
  }

  lemma LowerExactlyWhen(s: string, low: string)
    ensures Lower(s) == low <==> IsLower(s, low)
  {
    if IsLower(s, low) {
      assert forall i :: 0 <= i < |s| ==> Lower(s)[i] == low[i];
    }
  }

  // ----- white space around a text -----

  ghost predicate AllSpace(s: string) {
    forall c :: c in s ==> IsSpace(c)
  }

  /** The part of a text between its first and its last printing character. */
  ghost predicate IsTrimmed(s: string, before: string, part: string, after: string) {
    && s == before + part + after && AllSpace(before) && AllSpace(after)
    && (part != "" ==> !IsSpace(part[0]) && !IsSpace(part[|part| - 1]))
  }

  lemma {:induction false} StartIsSpace(s: string) returns (before: string)
    ensures s == before + TrimStart(s) && AllSpace(before)
    ensures TrimStart(s) != "" ==> !IsSpace(TrimStart(s)[0])
  {
    before := "";
    if s != [] && IsSpace(s[0]) {
      var rest := StartIsSpace(s[1..]);
      before := [s[0]] + rest;
    }
  }

  lemma {:induction false} EndIsSpace(s: string) returns (after: string)
    ensures s == TrimEnd(s) + after && AllSpace(after)
    ensures TrimEnd(s) != "" ==> !IsSpace(TrimEnd(s)[|TrimEnd(s)| - 1]) && TrimEnd(s)[0] == s[0]
  {
    after := "";
    if s != [] && IsSpace(s[|s| - 1]) {
      var rest := EndIsSpace(s[..|s| - 1]);
      after := rest + [s[|s| - 1]];
    }
  }

  lemma {:induction false} SpaceIsDropped(before: string, s: string)
    requires AllSpace(before) && (s != "" ==> !IsSpace(s[0]))
    ensures TrimStart(before + s) == s
  {
    if before == "" {
      assert before + s == s;
    } else {
      assert (before + s)[1..] == before[1..] + s;
      SpaceIsDropped(before[1..], s);
    }
  }

  lemma {:induction false} OnlySpace(after: string)
    requires AllSpace(after)
    ensures TrimStart(after) == "" && TrimEnd(after) == ""
  {
    if after != "" {
      OnlySpace(after[1..]);
      OnlySpace(after[..|after| - 1]);
    }
  }

  /** Trimming leaves what stands between the first and the last printing character. */
  lemma TrimExactlyWhen(s: string, part: string)
    ensures Trim(s) == part <==> exists before, after :: IsTrimmed(s, before, part, after)
  {
    var before := StartIsSpace(s);
    var after := EndIsSpace(TrimStart(s));
    assert IsTrimmed(s, before, Trim(s), after);
    if x, y :| IsTrimmed(s, x, part, y) {
      if part == "" {
        assert s == x + y;
        OnlySpace(x + y);
        assert TrimEnd("") == "";
      } else {
        assert s == x + (part + y);
        SpaceIsDropped(x, part + y);
        TrimEndKeepsPrefix(part, y);
        OnlySpace(y);
      }
    }
  }

  /** A raw word in any case, with white space around it. */
  ghost predicate Spells(raw: string, word: string) {
    exists before, part, after :: IsTrimmed(raw, before, part, after) && IsLower(part, word)
  }

  lemma SpellsExactlyWhen(raw: string, word: string)
    ensures Lower(Trim(raw)) == word <==> Spells(raw, word)
  {
    TrimExactlyWhen(raw, Trim(raw));
    hide IsTrimmed, IsLower, Lower, Trim;
    if Lower(Trim(raw)) == word {
      LowerExactlyWhen(Trim(raw), word);
    }
    if before, part, after :| IsTrimmed(raw, before, part, after) && IsLower(part, word) {
      TrimExactlyWhen(raw, part);
      LowerExactlyWhen(part, word);
    }
  }
}
