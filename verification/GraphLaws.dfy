/** Which file a node, an edge and a surface speak of, read off the fields and the text of the ids. */
module GraphLaws {
  import opened Options
  import opened Lcov
  import opened SourcePaths
  import opened Walks
  import opened BindingReach
  import opened MutationRun

  ghost predicate Says(o: Option<string>, text: string) {
    o == Some(text) && text != ""
  }

  /** An edge end is the first field unless that is absent or empty, and then the second. */
  lemma EndIsPreferred(a: Option<string>, b: Option<string>, v: string)
    ensures Prefer(a, b) == Some(v) <==> Says(a, v) || ((forall x :: !Says(a, x)) && Says(b, v))
  {
    assert a.Some? && a != Some("") ==> Says(a, a.value);
  }

  /** The same text with every backslash turned. */
  ghost predicate IsSlashed(path: string, slashed: string) {
    && |slashed| == |path| && '\\' !in slashed
    && forall i :: 0 <= i < |path| ==> slashed[i] == path[i] || (path[i] == '\\' && slashed[i] == '/')
  }

  lemma SlashesExactlyWhen(path: string, slashed: string)
    ensures Slashes(path) == slashed <==> IsSlashed(path, slashed)
  {
    if IsSlashed(path, slashed) {
      assert forall i :: 0 <= i < |path| ==> slashed[i] in slashed && Slashes(path)[i] == slashed[i];
    }
  }

  /** The text before the first separator, or all of it. */
  ghost predicate Precedes(s: string, c: char, part: string, rest: string) {
    s == part + rest && c !in part && (rest == "" || rest[0] == c)
  }

  lemma PartIsStart(s: string, c: char, part: string, rest: string)
    requires Precedes(s, c, part, rest)
    ensures part != "" ==> s != "" && s[0] == part[0] && s[0] != c
    ensures part == "" ==> s == "" || s[0] == c
  {
    assert part != "" ==> part[0] in part;
  }

  lemma {:induction false} UpToExactlyWhen(s: string, c: char, part: string)
    ensures UpTo(s, c) == part <==> exists rest :: Precedes(s, c, part, rest)
  {
    if s == "" || s[0] == c {
      assert Precedes(s, c, "", s);
      if rest :| Precedes(s, c, part, rest) {
        PartIsStart(s, c, part, rest);
      }
    } else if part == "" || part[0] != s[0] {
      assert UpTo(s, c)[0] == s[0];
      if rest :| Precedes(s, c, part, rest) {
        PartIsStart(s, c, part, rest);
      }
    } else {
      UpToExactlyWhen(s[1..], c, part[1..]);
      assert part == [s[0]] + part[1..];
      if rest :| Precedes(s[1..], c, part[1..], rest) {
        assert Precedes(s, c, part, rest);
      }
      if rest :| Precedes(s, c, part, rest) {
        assert s[1..] == part[1..] + rest;
        assert Precedes(s[1..], c, part[1..], rest);
      }
    }
  }

  /** What an id says after one of the two schemes, if it has one. */
  ghost predicate IsBody(id: Id, body: string) {
    id == "file:" + body || id == "symbol:" + body
    || (id == body && !("file:" <= id) && !("symbol:" <= id))
  }

  lemma BodyIs(id: Id, body: string)
    ensures WithoutScheme(id) == body <==> IsBody(id, body)
  {
    assert "file:" <= id ==> id == "file:" + id[5..];
    assert "symbol:" <= id ==> id == "symbol:" + id[7..];
    assert ("file:" + body)[5..] == body && ("symbol:" + body)[7..] == body;
    assert id == "file:" + body ==> id[0] == 'f';
    assert id == "symbol:" + body ==> id[0] == 's';
  }

  /** An id names the path that stands in its body before the first hash mark. */
  ghost predicate NamesPath(id: Id, path: string) {
    exists body, rest :: IsBody(id, body) && Precedes(body, '#', path, rest)
  }

  lemma PathIsNamed(id: Id, path: string)
    ensures UpTo(WithoutScheme(id), '#') == path <==> NamesPath(id, path)
  {
    BodyIs(id, WithoutScheme(id));
    UpToExactlyWhen(WithoutScheme(id), '#', path);
    hide UpTo, WithoutScheme, IsBody, Precedes;
    forall body | IsBody(id, body) ensures body == WithoutScheme(id) {
      BodyIs(id, body);
    }
  }

  /** The file of a node is its span, or without a span the path its id names, with slashes. */
  lemma NodeFileExactlyWhen(n: Node, file: string)
    ensures NodeFile(n) == Some(file) <==>
              file != "" && exists raw :: IsSlashed(raw, file)
                                          && (n.spanFile == Some(raw) || (n.spanFile.None? && NamesPath(n.id, raw)))
  {
    var raw := if n.spanFile.Some? then n.spanFile.value else UpTo(WithoutScheme(n.id), '#');
    hide UpTo, WithoutScheme, NamesPath, Slashes, IsSlashed;
    assert NodeFile(n) == Some(file) <==> file != "" && Slashes(raw) == file;
    SlashesExactlyWhen(raw, file);
    PathIsNamed(n.id, raw);
    forall x | n.spanFile == Some(x) || (n.spanFile.None? && NamesPath(n.id, x)) ensures x == raw {
      PathIsNamed(n.id, x);
    }
  }

  /** A surface claims a path exactly when one of its ids is that path or names it, slashes turned. */
  lemma ClaimsExactlyWhen(s: Surface, path: string, normal: string)
    requires IsSlashed(path, normal)
    ensures Claims(s, path) <==>
              exists id :: id in s.nodes
                           && (id == normal
                               || exists raw :: raw != "" && NamesPath(id, raw) && IsSlashed(raw, normal))
  {
    SlashesExactlyWhen(path, normal);
    hide UpTo, WithoutScheme, NamesPath, Slashes, IsSlashed;
    forall id ensures (UpTo(WithoutScheme(id), '#') != "" && Slashes(UpTo(WithoutScheme(id), '#')) == normal) <==>
                      exists raw :: raw != "" && NamesPath(id, raw) && IsSlashed(raw, normal) {
      var named := UpTo(WithoutScheme(id), '#');
      PathIsNamed(id, named);
      SlashesExactlyWhen(named, normal);
      forall raw | NamesPath(id, raw) ensures raw == named {
        PathIsNamed(id, raw);
      }
    }
  }
}
