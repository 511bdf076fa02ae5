/** Which files and names pytest collects by convention. */
module PytestConventions {
  import opened ModulePaths

  predicate StartsWith(s: string, prefix: string) {
    prefix <= s
  }

  /** What follows the last separator, or everything if there is none. */
  function AfterLast(s: string, separator: char): (r: string)
    ensures separator !in r && |r| <= |s| && s[|s| - |r|..] == r
    ensures if separator in s then |r| < |s| && s[|s| - |r| - 1] == separator else r == s
  {
    if s == "" || s[|s| - 1] == separator then ""
    else
      var before := AfterLast(s[..|s| - 1], separator);
      assert s[|s| - 1 - |before|..] == before + [s[|s| - 1]];
      before + [s[|s| - 1]]
  }

  predicate IsTestFilePath(path: string) {
    var basename := AfterLast(path, '/');
    (StartsWith(basename, "test_") && EndsWith(basename, ".py")) || EndsWith(basename, "_test.py")
  }

  predicate IsTestQualname(qualname: string) {
    StartsWith(AfterLast(qualname, '.'), "test_")
  }

  lemma {:induction false} AfterSeparator(before: string, rest: string, separator: char)
    requires separator !in rest && (before == "" || before[|before| - 1] == separator)
    ensures AfterLast(before + rest, separator) == rest
    decreases |rest|
  {
    var s := before + rest;
    if rest == "" {
      assert s == before;
    } else {
      var fewer := rest[..|rest| - 1];
      assert rest == fewer + [rest[|rest| - 1]];
      assert s[..|s| - 1] == before + fewer;
      AfterSeparator(before, fewer, separator);
    }
  }

  /** Whatever its directory, a file is a test file by its name: `test_*.py` or `*_test.py`. */
  lemma TestFileByName(directory: string, name: string)
    requires '/' !in name && (directory == "" || directory[|directory| - 1] == '/')
    ensures IsTestFilePath(directory + name) <==>
            ("test_" <= name && EndsWith(name, ".py")) || EndsWith(name, "_test.py")
  {
    AfterSeparator(directory, name, '/');
    hide AfterLast, EndsWith;
  }

  /** Whatever it is a member of, a definition is a test by its own name: `test_*`. */
  lemma TestByOwnName(scope: string, name: string)
    requires '.' !in name && (scope == "" || scope[|scope| - 1] == '.')
    ensures IsTestQualname(scope + name) <==> "test_" <= name
  {
    AfterSeparator(scope, name, '.');
    hide AfterLast;
  }
}
