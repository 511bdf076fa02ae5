/** File paths, the dotted module names they answer to, and the index over those names. */
module ModulePaths {

  predicate EndsWith(s: string, suffix: string) {
    |suffix| <= |s| && s[|s| - |suffix|..] == suffix
  }

  function ReplaceSlashes(s: string): (r: string)
    ensures |r| == |s|
    ensures forall i :: 0 <= i < |s| ==> r[i] == if s[i] == '/' then '.' else s[i]
  {
    seq(|s|, i requires 0 <= i < |s| => if s[i] == '/' then '.' else s[i])
  }

  /** A file's own dotted module name; package files stand for their directory. */
  function PathToDotted(filePath: string): string {
    var stem :=
      if EndsWith(filePath, "/__init__.py") then filePath[..|filePath| - |"/__init__.py"|]
      else if EndsWith(filePath, ".py") then filePath[..|filePath| - |".py"|]
      else filePath;
    ReplaceSlashes(stem)
  }

  /** Does an imported dotted name resolve to this file: is it the file's own name or a dotted suffix of it? */
  predicate ModulePathMatches(candidateFilePath: string, importedModulePath: string) {
    var dotted := PathToDotted(candidateFilePath);
    dotted == importedModulePath || EndsWith(dotted, "." + importedModulePath)
  }

  /** A package file goes by its directory, a module file by its stem, and any other file by its path. */
  lemma DottedNames(stem: string, other: string)
    ensures PathToDotted(stem + "/__init__.py") == ReplaceSlashes(stem)
    ensures !EndsWith(stem + ".py", "/__init__.py") ==> PathToDotted(stem + ".py") == ReplaceSlashes(stem)
    ensures !EndsWith(other, ".py") ==> PathToDotted(other) == ReplaceSlashes(other)
  {
    EndsWithIts(stem, "/__init__.py");
    EndsWithIts(stem, ".py");
    InitEndsPy(other);
    hide EndsWith, ReplaceSlashes;
  }

  lemma EndsWithIts(stem: string, suffix: string)
    ensures EndsWith(stem + suffix, suffix)
    ensures (stem + suffix)[..|stem + suffix| - |suffix|] == stem
  {
  }

  lemma InitEndsPy(path: string)
    ensures EndsWith(path, "/__init__.py") ==> EndsWith(path, ".py")
  {
    var init, py := "/__init__.py", ".py";
    if EndsWith(path, init) {
      assert path[|path| - |py|..] == path[|path| - |init|..][|init| - |py|..];
      assert init[|init| - |py|..] == py;
    }
  }

  // ----- splitting at dots and joining again -----

  function Split(s: string): (parts: seq<string>)
    ensures parts != []
  {
    if s == "" then [""]
    else if s[0] == '.' then [""] + Split(s[1..])
    else
      var r := Split(s[1..]);
      [[s[0]] + r[0]] + r[1..]
  }

  function Join(parts: seq<string>): string
    requires parts != []
  {
    if |parts| == 1 then parts[0] else parts[0] + "." + Join(parts[1..])
  }

  lemma JoinDot(parts: seq<string>)
    requires parts != []
    ensures Join([""] + parts) == "." + Join(parts)
  {
    assert ([""] + parts)[1..] == parts;
  }

  lemma JoinLetter(c: char, parts: seq<string>)
    requires parts != []
    ensures Join([[c] + parts[0]] + parts[1..]) == [c] + Join(parts)
  {
    assert ([[c] + parts[0]] + parts[1..])[1..] == parts[1..];
    if |parts| > 1 {
      var rest := Join(parts[1..]);
      hide Join;
      assert ([c] + parts[0]) + "." + rest == [c] + (parts[0] + "." + rest);
    }
  }

  lemma {:induction false} JoinSplit(s: string)
    ensures Join(Split(s)) == s
  {
    if s != "" {
      JoinSplit(s[1..]);
      if s[0] == '.' { JoinDot(Split(s[1..])); } else { JoinLetter(s[0], Split(s[1..])); }
      hide Join;
      assert s == [s[0]] + s[1..];
    }
  }

  lemma {:induction false} JoinShrinks(parts: seq<string>, i: nat, j: nat)
    requires i < j < |parts|
    ensures |Join(parts[j..])| < |Join(parts[i..])|
    decreases j - i
  {
    assert parts[i..][1..] == parts[i + 1..];
    if i + 1 < j { JoinShrinks(parts, i + 1, j); }
  }

  /** A name is the joined tail of the parts from `start` on. */
  predicate IsTail(parts: seq<string>, start: nat, name: string) {
    start < |parts| && Join(parts[start..]) == name
  }

  lemma TailUnique(parts: seq<string>, i: nat, j: nat, name: string)
    requires IsTail(parts, i, name) && IsTail(parts, j, name)
    ensures i == j
  {
    if i < j { JoinShrinks(parts, i, j); }
    if j < i { JoinShrinks(parts, j, i); }
  }

  lemma EndsWithStep(s: string, name: string)
    requires s != ""
    ensures EndsWith(s, "." + name) <==> (s[0] == '.' && s[1..] == name) || EndsWith(s[1..], "." + name)
  {
    if |s| == |name| + 1 {
      assert s == [s[0]] + s[1..];
    } else if |s| > |name| + 1 {
      assert s[|s| - |name| - 1..] == s[1..][|s| - 1 - |name| - 1..];
    }
  }

  ghost predicate HasTailFrom(parts: seq<string>, from: nat, name: string) {
    exists start: nat :: from <= start && IsTail(parts, start, name)
  }

  lemma TailsShift(parts: seq<string>, r: seq<string>, from: nat, shift: nat, name: string)
    requires shift <= 1 && |parts| == |r| + shift
    requires forall k: nat :: from <= k < |r| ==> parts[k + shift..] == r[k..]
    ensures HasTailFrom(parts, from + shift, name) <==> HasTailFrom(r, from, name)
  {
    if HasTailFrom(parts, from + shift, name) {
      var start: nat :| from + shift <= start && IsTail(parts, start, name);
      assert parts[(start - shift) + shift..] == r[start - shift..];
      assert IsTail(r, start - shift, name);
    }
    if HasTailFrom(r, from, name) {
      var start: nat :| from <= start && IsTail(r, start, name);
      assert parts[start + shift..] == r[start..];
      assert IsTail(parts, start + shift, name);
    }
  }

  /** The proper joined tails of a dotted name are exactly its dotted suffixes. */
  lemma {:induction false} TailsAreSuffixes(s: string, name: string)
    ensures HasTailFrom(Split(s), 1, name) <==> EndsWith(s, "." + name)
  {
    if s != "" {
      var parts, r := Split(s), Split(s[1..]);
      TailsAreSuffixes(s[1..], name);
      EndsWithStep(s, name);
      if s[0] == '.' {
        TailsShift(parts, r, 0, 1, name);
        WholeOrProper(s[1..], name);
      } else {
        TailsShift(parts, r, 1, 0, name);
      }
    }
  }

  lemma WholeOrProper(s: string, name: string)
    ensures HasTailFrom(Split(s), 0, name) <==> s == name || HasTailFrom(Split(s), 1, name)
  {
    JoinSplit(s);
    var parts := Split(s);
    assert parts[0..] == parts;
    assert IsTail(parts, 0, name) <==> s == name;
    if HasTailFrom(parts, 0, name) {
      var start: nat :| IsTail(parts, start, name);
      assert start >= 1 ==> HasTailFrom(parts, 1, name);
    }
  }

  /** The index keys a path is registered under are exactly the names the pairwise matcher accepts. */
  lemma TailsAreMatches(path: string, name: string)
    ensures HasTailFrom(Split(PathToDotted(path)), 0, name) <==> ModulePathMatches(path, name)
  {
    TailsAreSuffixes(PathToDotted(path), name);
    WholeOrProper(PathToDotted(path), name);
  }

  // ----- the index -----

  /** The scan the index replaces: every listed path that matches, in order. */
  ghost function Scan(paths: seq<string>, name: string): seq<string> {
    if paths == [] then []
    else
      var k := |paths| - 1;
      Scan(paths[..k], name) + (if ModulePathMatches(paths[k], name) then [paths[k]] else [])
  }

  function Lookup(index: map<string, seq<string>>, name: string): seq<string> {
    if name in index then index[name] else []
  }

  ghost predicate HasTailBelow(parts: seq<string>, limit: nat, name: string) {
    exists start: nat :: start < limit && IsTail(parts, start, name)
  }

  lemma TailBelowStep(parts: seq<string>, start: nat, name: string)
    requires start < |parts|
    ensures name == Join(parts[start..]) ==> !HasTailBelow(parts, start, name) && HasTailBelow(parts, start + 1, name)
    ensures name != Join(parts[start..]) ==>
            (HasTailBelow(parts, start, name) <==> HasTailBelow(parts, start + 1, name))
  {
    assert IsTail(parts, start, Join(parts[start..]));
    if HasTailBelow(parts, start + 1, name) {
      var s: nat :| s < start + 1 && IsTail(parts, s, name);
      assert s != start ==> HasTailBelow(parts, start, name);
    }
    if name == Join(parts[start..]) && HasTailBelow(parts, start, name) {
      var s: nat :| s < start && IsTail(parts, s, name);
      TailUnique(parts, s, start, name);
    }
  }

  /** Registers one path under every dotted suffix of its name. */
  method Register(index: map<string, seq<string>>, path: string) returns (after: map<string, seq<string>>)
    ensures forall name {:trigger Lookup(after, name)} :: Lookup(after, name) ==
              Lookup(index, name) + (if ModulePathMatches(path, name) then [path] else [])
  {
    after := index;
    var parts := Split(PathToDotted(path));
    for start := 0 to |parts|
      invariant forall name {:trigger Lookup(after, name)} :: Lookup(after, name) ==
                  Lookup(index, name) + (if HasTailBelow(parts, start, name) then [path] else [])
    {
      var suffix := Join(parts[start..]);
      ghost var before := after;
      after := after[suffix := Lookup(after, suffix) + [path]];
      forall name
        ensures Lookup(after, name) ==
                  Lookup(index, name) + (if HasTailBelow(parts, start + 1, name) then [path] else [])
      {
        TailBelowStep(parts, start, name);
        assert Lookup(before, name) ==
               Lookup(index, name) + (if HasTailBelow(parts, start, name) then [path] else []);
      }
    }
    forall name ensures HasTailBelow(parts, |parts|, name) <==> ModulePathMatches(path, name) {
      TailsAreMatches(path, name);
      if HasTailFrom(parts, 0, name) {
        var start: nat :| IsTail(parts, start, name);
        assert HasTailBelow(parts, |parts|, name);
      }
    }
  }

  /** One entry per module path under every dotted suffix of its name: looking up is scanning. */
  method BuildDottedNameIndex(modulePaths: seq<string>) returns (index: map<string, seq<string>>)
    ensures forall name {:trigger Lookup(index, name)} :: Lookup(index, name) == Scan(modulePaths, name)
  {
    index := map[];
    for i := 0 to |modulePaths|
      invariant forall name {:trigger Lookup(index, name)} :: Lookup(index, name) == Scan(modulePaths[..i], name)
    {
      index := Register(index, modulePaths[i]);
      assert modulePaths[..i + 1][..i] == modulePaths[..i];
    }
    assert modulePaths[..|modulePaths|] == modulePaths;
  }

  lemma CountAppended(s: seq<string>, x: string, y: string)
    ensures multiset(s + [x])[y] == multiset(s)[y] + if x == y then 1 else 0
  {
  }

  lemma {:induction false} ScanLists(paths: seq<string>, name: string, path: string)
    ensures multiset(Scan(paths, name))[path] == if ModulePathMatches(path, name) then multiset(paths)[path] else 0
  {
    hide ModulePathMatches;
    if paths != [] {
      var before, last := paths[..|paths| - 1], paths[|paths| - 1];
      ScanLists(before, name, path);
      var scanned := Scan(before, name);
      assert Scan(paths, name) == if ModulePathMatches(last, name) then scanned + [last] else scanned;
      hide Scan;
      assert paths == before + [last];
      CountAppended(before, last, path);
      CountAppended(scanned, last, path);
    }
  }
}
