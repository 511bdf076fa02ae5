/** From module files and their import statements to the import cycles of an architecture report. */
module Architecture {
  import opened Wrappers
  import opened Ordering
  import opened ModulePaths
  import CycleReport
  import FindCycles

  /** A module symbol's file and the targets of its `imports` relations. */
  datatype ModuleFile = ModuleFile(path: string, importTargets: seq<string>)

  function PathsOf(modules: seq<ModuleFile>): (paths: seq<string>)
    ensures |paths| == |modules| && forall i :: 0 <= i < |paths| ==> paths[i] == modules[i].path
  {
    seq(|modules|, i requires 0 <= i < |modules| => modules[i].path)
  }

  function StripTrailingSlashes(s: string): string {
    if s != "" && s[|s| - 1] == '/' then StripTrailingSlashes(s[..|s| - 1]) else s
  }

  /** Is the path the root itself or below it, at a path-segment boundary? */
  predicate InScope(path: string, root: Option<string>) {
    match root
    case None => true
    case Some(prefix) =>
      var r := StripTrailingSlashes(prefix);
      path == r || r + "/" <= path
  }

  function Scoped(modules: seq<ModuleFile>, root: Option<string>): seq<ModuleFile> {
    if modules == [] then []
    else
      var k := |modules| - 1;
      Scoped(modules[..k], root) + (if InScope(modules[k].path, root) then [modules[k]] else [])
  }

  /** `target.rsplit(".", 1)[0]`: the text before the last dot, the whole text if there is none. */
  function BeforeLastDot(target: string): string {
    if '.' !in target then target
    else if target[|target| - 1] == '.' then target[..|target| - 1]
    else BeforeLastDot(target[..|target| - 1])
  }

  /** It takes off the last segment, and only that. */
  lemma {:induction false} LastSegmentOff(base: string, last: string)
    requires '.' !in last
    ensures BeforeLastDot(base + "." + last) == base
    decreases |last|
  {
    var target := base + "." + last;
    assert target[|base|] == '.';
    if last == "" {
      assert target[..|target| - 1] == base;
    } else {
      assert target[|target| - 1] == last[|last| - 1];
      assert target[..|target| - 1] == base + "." + last[..|last| - 1];
      LastSegmentOff(base, last[..|last| - 1]);
    }
  }

  ghost predicate AllSlashes(s: string) {
    forall i :: 0 <= i < |s| ==> s[i] == '/'
  }

  lemma {:induction false} SlashesStripped(root: string, slashes: string)
    requires AllSlashes(slashes) && (root == "" || root[|root| - 1] != '/')
    ensures StripTrailingSlashes(root + slashes) == root
  {
    if slashes == "" {
      assert root + slashes == root;
    } else {
      assert (root + slashes)[|root + slashes| - 1] == slashes[|slashes| - 1];
      assert (root + slashes)[..|root + slashes| - 1] == root + slashes[..|slashes| - 1];
      SlashesStripped(root, slashes[..|slashes| - 1]);
    }
  }

  /** However many slashes end the root, its scope is the file or directory of that name, and no longer name's. */
  lemma InScopeExactly(path: string, root: string, slashes: string)
    requires AllSlashes(slashes) && (root == "" || root[|root| - 1] != '/')
    ensures InScope(path, Some(root + slashes)) <==> path == root || exists rest :: path == root + "/" + rest
    ensures InScope(path, None)
  {
    SlashesStripped(root, slashes);
    if root + "/" <= path { assert path == root + "/" + path[|root| + 1..]; }
    hide StripTrailingSlashes;
  }

  /** Scoping keeps the modules in scope, in their order. */
  lemma {:induction false} ScopedExactly(modules: seq<ModuleFile>, root: Option<string>, m: ModuleFile)
    ensures m in Scoped(modules, root) <==> m in modules && InScope(m.path, root)
    ensures multiset(Scoped(modules, root))[m] == if InScope(m.path, root) then multiset(modules)[m] else 0
  {
    hide InScope;
    if modules != [] {
      var k := |modules| - 1;
      ScopedExactly(modules[..k], root, m);
      assert modules == modules[..k] + [modules[k]];
    }
  }

  function ResolveImportTarget(target: string, index: map<string, seq<string>>): seq<string> {
    var candidates := Lookup(index, target);
    if candidates != [] then candidates
    else if '.' !in target then []
    else Lookup(index, BeforeLastDot(target))
  }

  ghost function Matching(paths: seq<string>, name: string): set<string> {
    set p | p in paths && ModulePathMatches(p, name)
  }

  /** The files an import target means: those matching it, else those matching it less its last segment. */
  ghost function Resolution(paths: seq<string>, target: string): set<string> {
    var direct := Matching(paths, target);
    if direct != {} || '.' !in target then direct else Matching(paths, BeforeLastDot(target))
  }

  lemma {:induction false} ScanElements(paths: seq<string>, name: string)
    ensures Elements(Scan(paths, name)) == Matching(paths, name)
    ensures Scan(paths, name) == [] <==> Matching(paths, name) == {}
  {
    hide ModulePathMatches;
    if paths != [] {
      var k := |paths| - 1;
      var last := if ModulePathMatches(paths[k], name) then [paths[k]] else [];
      ScanElements(paths[..k], name);
      assert paths == paths[..k] + [paths[k]];
      assert Matching(paths, name) == Matching(paths[..k], name) + Elements(last);
      assert Elements(Scan(paths[..k], name) + last) == Elements(Scan(paths[..k], name)) + Elements(last);
    }
    var r := Scan(paths, name);
    if r != [] { assert r[0] in Elements(r); }
  }

  /** Resolving through the index finds exactly the files the pairwise matcher accepts. */
  lemma ResolveMeansResolution(paths: seq<string>, index: map<string, seq<string>>, target: string)
    requires forall name {:trigger Lookup(index, name)} :: Lookup(index, name) == Scan(paths, name)
    ensures Elements(ResolveImportTarget(target, index)) == Resolution(paths, target)
    ensures ResolveImportTarget(target, index) == [] <==> Resolution(paths, target) == {}
  {
    ScanElements(paths, target);
    ScanElements(paths, BeforeLastDot(target));
  }

  ghost predicate ImportsFile(paths: seq<string>, m: ModuleFile, file: string) {
    exists t :: t in m.importTargets && file in Resolution(paths, t)
  }

  /** Some scoped module at `a` imports the scoped file `b`. */
  ghost predicate IsFileEdge(paths: seq<string>, scoped: seq<ModuleFile>, a: string, b: string) {
    && b in PathsOf(scoped)
    && exists m :: m in scoped && m.path == a && ImportsFile(paths, m, b)
  }

  ghost function ExternalImports(paths: seq<string>, targets: seq<string>): nat {
    if targets == [] then 0
    else
      var k := |targets| - 1;
      ExternalImports(paths, targets[..k]) + (if Resolution(paths, targets[k]) == {} then 1 else 0)
  }

  /** The scoped files one module imports, and how many of its imports leave the repository. */
  method FilesImported(m: ModuleFile, nodePaths: set<string>, index: map<string, seq<string>>, ghost paths: seq<string>)
    returns (files: set<string>, count: nat)
    requires forall name {:trigger Lookup(index, name)} :: Lookup(index, name) == Scan(paths, name)
    ensures forall file :: file in files <==> file in nodePaths && ImportsFile(paths, m, file)
    ensures count == ExternalImports(paths, m.importTargets)
  {
    hide Resolution, ResolveImportTarget, Scan, Lookup;
    files, count := {}, 0;
    for i := 0 to |m.importTargets|
      invariant count == ExternalImports(paths, m.importTargets[..i])
      invariant forall file :: file in files <==>
        file in nodePaths && exists j :: 0 <= j < i && file in Resolution(paths, m.importTargets[j])
    {
      var target := m.importTargets[i];
      var candidates := ResolveImportTarget(target, index);
      ResolveMeansResolution(paths, index, target);
      assert m.importTargets[..i + 1][..i] == m.importTargets[..i];
      if candidates == [] {
        count := count + 1;
      } else {
        var found := set p | p in candidates && p in nodePaths;
        assert forall p :: p in found <==> p in nodePaths && p in Elements(candidates);
        files := files + found;
      }
    }
    assert m.importTargets[..|m.importTargets|] == m.importTargets;
    forall file ensures file in files <==> file in nodePaths && ImportsFile(paths, m, file) {
      if file in files {
        var j :| 0 <= j < |m.importTargets| && file in Resolution(paths, m.importTargets[j]);
        assert m.importTargets[j] in m.importTargets;
      }
    }
  }

  /** Among the first `k` scoped modules one at `a` imports `b`. */
  ghost predicate ImportedBelow(paths: seq<string>, scoped: seq<ModuleFile>, k: nat, a: string, b: string) {
    exists j :: 0 <= j < k && j < |scoped| && scoped[j].path == a && ImportsFile(paths, scoped[j], b)
  }

  lemma ImportedStep(paths: seq<string>, scoped: seq<ModuleFile>, k: nat, a: string, b: string)
    requires k < |scoped|
    ensures ImportedBelow(paths, scoped, k + 1, a, b) <==>
            ImportedBelow(paths, scoped, k, a, b) || (scoped[k].path == a && ImportsFile(paths, scoped[k], b))
  {
    hide ImportsFile;
  }

  lemma ImportedIsEdge(paths: seq<string>, scoped: seq<ModuleFile>, nodePaths: set<string>, a: string, b: string)
    requires nodePaths == set m | m in scoped :: m.path
    ensures b in nodePaths && ImportedBelow(paths, scoped, |scoped|, a, b) <==> IsFileEdge(paths, scoped, a, b)
    ensures IsFileEdge(paths, scoped, a, b) ==> a in PathsOf(scoped) && b in PathsOf(scoped)
  {
    hide ImportsFile;
    NodePaths(scoped, nodePaths, b);
    NodePaths(scoped, nodePaths, a);
    if ImportedBelow(paths, scoped, |scoped|, a, b) {
      var j :| 0 <= j < |scoped| && scoped[j].path == a && ImportsFile(paths, scoped[j], b);
      assert scoped[j] in scoped;
    }
  }

  lemma NodePaths(scoped: seq<ModuleFile>, nodePaths: set<string>, p: string)
    requires nodePaths == set m | m in scoped :: m.path
    ensures p in nodePaths <==> p in PathsOf(scoped)
  {
    if p in nodePaths {
      var m :| m in scoped && m.path == p;
      var j :| 0 <= j < |scoped| && scoped[j] == m;
      assert PathsOf(scoped)[j] == p;
    }
    if p in PathsOf(scoped) {
      var j :| 0 <= j < |scoped| && PathsOf(scoped)[j] == p;
      assert scoped[j] in scoped;
    }
  }

  /** Per path, the external imports of the last of the first `k` modules there. */
  ghost predicate CountsBelow(paths: seq<string>, scoped: seq<ModuleFile>, k: nat, externalCount: map<string, nat>) {
    forall i {:trigger scoped[i]} ::
      0 <= i < k && k <= |scoped| && (forall j :: i < j < k ==> scoped[j].path != scoped[i].path) ==>
        scoped[i].path in externalCount
        && externalCount[scoped[i].path] == ExternalImports(paths, scoped[i].importTargets)
  }

  lemma CountsStep(paths: seq<string>, scoped: seq<ModuleFile>, k: nat, externalCount: map<string, nat>)
    requires k < |scoped| && CountsBelow(paths, scoped, k, externalCount)
    ensures CountsBelow(paths, scoped, k + 1,
                        externalCount[scoped[k].path := ExternalImports(paths, scoped[k].importTargets)])
  {
    hide ExternalImports;
  }

  method ComputeFileEdges(scoped: seq<ModuleFile>, index: map<string, seq<string>>, ghost paths: seq<string>)
    returns (edges: set<(string, string)>, externalCount: map<string, nat>)
    requires forall name {:trigger Lookup(index, name)} :: Lookup(index, name) == Scan(paths, name)
    ensures forall a, b :: (a, b) in edges <==> IsFileEdge(paths, scoped, a, b)
    ensures CountsBelow(paths, scoped, |scoped|, externalCount)
  {
    hide ImportsFile, ExternalImports, Scan, Lookup, ImportedBelow, CountsBelow, IsFileEdge;
    var nodePaths := set m | m in scoped :: m.path;
    edges, externalCount := {}, map[];
    assert CountsBelow(paths, scoped, 0, externalCount) by { NothingBelow(paths, scoped, externalCount); }
    forall a, b ensures !ImportedBelow(paths, scoped, 0, a, b) { NoneImported(paths, scoped, a, b); }
    for i := 0 to |scoped|
      invariant forall a, b :: (a, b) in edges <==> b in nodePaths && ImportedBelow(paths, scoped, i, a, b)
      invariant CountsBelow(paths, scoped, i, externalCount)
    {
      var module_ := scoped[i];
      var files, count := FilesImported(module_, nodePaths, index, paths);
      forall a, b ensures ImportedBelow(paths, scoped, i + 1, a, b) <==>
                            ImportedBelow(paths, scoped, i, a, b)
                            || (module_.path == a && ImportsFile(paths, module_, b)) {
        ImportedStep(paths, scoped, i, a, b);
      }
      edges := edges + set b | b in files :: (module_.path, b);
      CountsStep(paths, scoped, i, externalCount);
      externalCount := externalCount[module_.path := count];
    }
    forall a, b ensures (a, b) in edges <==> IsFileEdge(paths, scoped, a, b) {
      ImportedIsEdge(paths, scoped, nodePaths, a, b);
    }
  }

  lemma NothingBelow(paths: seq<string>, scoped: seq<ModuleFile>, externalCount: map<string, nat>)
    ensures CountsBelow(paths, scoped, 0, externalCount)
  {
  }

  lemma NoneImported(paths: seq<string>, scoped: seq<ModuleFile>, a: string, b: string)
    ensures !ImportedBelow(paths, scoped, 0, a, b)
  {
  }

  /** Every import between scoped files. */
  ghost function ImportGraph(paths: seq<string>, scoped: seq<ModuleFile>): set<(string, string)> {
    set a, b | a in PathsOf(scoped) && b in PathsOf(scoped) && IsFileEdge(paths, scoped, a, b) :: (a, b)
  }

  lemma SamePairs(x: set<(string, string)>, y: set<(string, string)>)
    requires forall a, b :: (a, b) in x <==> (a, b) in y
    ensures x == y
  {
    forall e ensures e in x <==> e in y { assert e == (e.0, e.1); }
  }

  /** The `cycles` of `architecture()`: root scope applies, no cap does. */
  method ArchitectureCycles(modules: seq<ModuleFile>, root: Option<string>)
    returns (cycles: seq<seq<string>>)
    ensures CycleReport.Report(Elements(PathsOf(Scoped(modules, root))),
                               ImportGraph(PathsOf(modules), Scoped(modules, root)), cycles)
  {
    hide IsFileEdge, Scoped, CountsBelow, Scan, Lookup;
    var index := BuildDottedNameIndex(PathsOf(modules));
    var scoped := Scoped(modules, root);
    var fileEdges, externalCount := ComputeFileEdges(scoped, index, PathsOf(modules));
    var nodePaths := set p | p in PathsOf(scoped);
    assert nodePaths == Elements(PathsOf(scoped));
    forall e | e in fileEdges ensures e.0 in nodePaths && e.1 in nodePaths {
      assert (e.0, e.1) in fileEdges;
      ImportedIsEdge(PathsOf(modules), scoped, set m | m in scoped :: m.path, e.0, e.1);
    }
    forall a, b ensures (a, b) in fileEdges <==> (a, b) in ImportGraph(PathsOf(modules), scoped) {
      ImportedIsEdge(PathsOf(modules), scoped, set m | m in scoped :: m.path, a, b);
    }
    SamePairs(fileEdges, ImportGraph(PathsOf(modules), scoped));
    ghost var looks;
    cycles, looks := FindCycles.FindCycles(fileEdges, nodePaths);
  }
}
