/** Which paths are tests, production sources and sources of an ecosystem, by how their text is put together. */
module PathLaws {
  import opened Options
  import opened Lcov
  import opened Strings
  import opened TextLaws
  import opened SourcePaths
  import opened MutationRules
  import opened MutationPlan
  import opened ChangePlanning

  /** The text is a directory, possibly empty, followed by a name without a slash. */
  ghost predicate Names(s: string, dir: string, name: string) {
    s == dir + name && '/' !in name && (dir == "" || dir[|dir| - 1] == '/')
  }

  lemma NameIsLast(s: string, dir: string, name: string)
    requires Names(s, dir, name) && name != []
    ensures s != [] && s[|s| - 1] == name[|name| - 1] && s[|s| - 1] != '/'
  {
    assert name[|name| - 1] in name;
  }

  lemma {:induction false} FileNameExactlyWhen(s: string, name: string)
    ensures FileName(s) == name <==> exists dir :: Names(s, dir, name)
  {
    if s == [] || s[|s| - 1] == '/' {
      assert Names(s, s, []);
      if name != [] {
        forall dir | Names(s, dir, name) ensures false {
          NameIsLast(s, dir, name);
        }
      }
    } else {
      var n := |s| - 1;
      if FileName(s) == name {
        FileNameExactlyWhen(s[..n], name[..|name| - 1]);
        var dir :| Names(s[..n], dir, name[..|name| - 1]);
        assert Names(s, dir, name);
      }
      if dir :| Names(s, dir, name) {
        assert name != [];
        assert s[..n] == dir + name[..|name| - 1];
        FileNameExactlyWhen(s[..n], name[..|name| - 1]);
        assert Names(s[..n], dir, name[..|name| - 1]);
      }
    }
  }

  // ----- test paths -----

  const TEST_DIRECTORIES := ["/tests/", "/__tests__/"]
  const TEST_MARKS := [".test.", ".spec.", ".stories."]

  /** In a test directory, or with a test name. */
  ghost predicate IsTestText(p: string, name: string) {
    || Begins(p, "tests/") || (exists i :: 0 <= i < 2 && Holds(p, TEST_DIRECTORIES[i]))
    || Ends(name, "_test.go") || Begins(name, "test_") || (exists i :: 0 <= i < 3 && Holds(name, TEST_MARKS[i]))
  }

  /** A path is a test exactly when it lies in a test directory or its file has a test name, in any case. */
  lemma TestPathExactlyWhen(path: string, dir: string, name: string)
    requires Names(Lower(Slashes(path)), dir, name)
    ensures IsTestSourcePath(path) <==> IsTestText(Lower(Slashes(path)), name)
  {
    var p := Lower(Slashes(path));
    FileNameExactlyWhen(p, name);
    StartsWithExactlyWhen(p, "tests/");
    StartsWithExactlyWhen(name, "test_");
    EndsWithExactlyWhen(name, "_test.go");
    ContainsExactlyWhen(p, TEST_DIRECTORIES[0]);
    ContainsExactlyWhen(p, TEST_DIRECTORIES[1]);
    ContainsExactlyWhen(name, TEST_MARKS[0]);
    ContainsExactlyWhen(name, TEST_MARKS[1]);
    ContainsExactlyWhen(name, TEST_MARKS[2]);
    hide Contains, EndsWith, FileName, Lower, Slashes, Names, Holds, Ends, Begins;
    assert TEST_DIRECTORIES[0] == "/tests/" && TEST_DIRECTORIES[1] == "/__tests__/";
    assert TEST_MARKS[0] == ".test." && TEST_MARKS[1] == ".spec." && TEST_MARKS[2] == ".stories.";
  }

  const SOURCES := [".ts", ".tsx", ".js", ".jsx", ".mjs", ".cjs", ".go", ".rs"]

  /** Production code is what is no test and ends in one of the eight extensions. */
  lemma ProductionExactlyWhen(path: string)
    ensures IsProductionSource(path) <==>
              !IsTestSourcePath(path) && exists i :: 0 <= i < 8 && Ends(Lower(path), SOURCES[i])
  {
    var p := Lower(path);
    forall i | 0 <= i < 8 ensures EndsWith(p, SOURCES[i]) <==> Ends(p, SOURCES[i]) {
      EndsWithExactlyWhen(p, SOURCES[i]);
    }
    hide EndsWith, Ends, IsTestSourcePath, Lower;
    assert SOURCES[0] == ".ts" && SOURCES[1] == ".tsx" && SOURCES[2] == ".js" && SOURCES[3] == ".jsx";
    assert SOURCES[4] == ".mjs" && SOURCES[5] == ".cjs" && SOURCES[6] == ".go" && SOURCES[7] == ".rs";
  }
}
