/**
 Bootstrap walks the files in arbitrary order, twice. Whatever the two orders and whatever the
 index held of those files before, two passes reach what resolving every file once against
 the complete symbol table would give, and further passes change nothing.
 */
module TwoPass {
  import opened Wrappers
  import opened Facts
  import opened Indexer
  import opened ModulePaths

  /** A walked file; `None` when its text does not parse, which makes indexing skip it. */
  datatype File = File(path: string, extraction: Option<Extraction>)

  function IndexFile(ix: Index, f: File): Index {
    match f.extraction
    case None => ix
    case Some(ex) => IndexOne(ix, f.path, ex, true)
  }

  /** The files of one pass, indexed one after another. */
  function Pass(ix: Index, files: seq<File>): Index {
    if files == [] then ix
    else IndexFile(Pass(ix, files[..|files| - 1]), files[|files| - 1])
  }

  function AllSymbols(files: seq<File>): Symbols {
    if files == [] then map[]
    else
      var f := files[|files| - 1];
      AllSymbols(files[..|files| - 1]) + (if f.extraction.Some? then ClaimMap(f.extraction.value.symbols) else map[])
  }

  function AllRelations(files: seq<File>, syms: Symbols): Relations {
    if files == [] then map[]
    else
      var f := files[|files| - 1];
      AllRelations(files[..|files| - 1], syms)
      + (if f.extraction.Some? then NewRelations(f.extraction.value, syms) else map[])
  }

  /** Every file's symbols, and every file's relations resolved once against all of them. */
  function Complete(files: seq<File>): Index {
    Index(AllSymbols(files), AllRelations(files, AllSymbols(files)))
  }

  // ----- hypotheses -----

  ghost predicate WellFormed(files: seq<File>) {
    && (forall i, j :: 0 <= i < j < |files| ==> files[i].path != files[j].path)
    && (forall f :: f in files && f.extraction.Some? ==> Local(f.path, f.extraction.value))
  }

  ghost predicate Parsed(f: File, files: seq<File>) {
    f in files && f.extraction.Some?
  }

  ghost predicate Covers(files: seq<File>, path: string) {
    exists f :: Parsed(f, files) && f.path == path
  }

  ghost predicate Owned(ix: Index) {
    forall id :: id in ix.symbols ==> OwnedBy(id, ix.symbols[id].path)
  }

  /** The index speaks of no other files. */
  ghost predicate MentionsOnly(ix: Index, files: seq<File>) {
    && Owned(ix)
    && (forall id :: id in ix.symbols ==> Covers(files, ix.symbols[id].path))
    && (forall k :: k in ix.relations ==> Covers(files, k.siteFile))
  }

  ghost predicate SameFiles(a: seq<File>, b: seq<File>) {
    forall f :: f in a <==> f in b
  }

  // ----- one file -----

  lemma SymbolIsLocal(path: string, ex: Extraction, id: SymbolId)
    requires Local(path, ex) && id in ClaimMap(ex.symbols)
    ensures OwnedBy(id, path) && ClaimMap(ex.symbols)[id].path == path
  {
    ClaimMapKeys(ex.symbols, id);
  }

  /** Indexing a file settles the symbols it owns and leaves all others alone. */
  lemma SymbolsAfter(ix: Index, path: string, ex: Extraction, id: SymbolId)
    requires Owned(ix) && Local(path, ex)
    ensures var after := IndexOne(ix, path, ex, true).symbols;
      var new_ := ClaimMap(ex.symbols);
      if OwnedBy(id, path) then (id in after <==> id in new_) && (id in after ==> after[id] == new_[id])
      else (id in after <==> id in ix.symbols) && (id in after ==> after[id] == ix.symbols[id])
  {
    if id in ClaimMap(ex.symbols) { SymbolIsLocal(path, ex, id); }
    if id in ix.symbols && OwnedBy(id, path) { OwnerUnique(id, path, ix.symbols[id].path); }
  }

  lemma OwnedAfter(ix: Index, f: File)
    requires Owned(ix) && (f.extraction.Some? ==> Local(f.path, f.extraction.value))
    ensures Owned(IndexFile(ix, f))
  {
    if f.extraction.Some? {
      var ex := f.extraction.value;
      forall id | id in IndexFile(ix, f).symbols ensures OwnedBy(id, IndexFile(ix, f).symbols[id].path) {
        SymbolsAfter(ix, f.path, ex, id);
        if id in ClaimMap(ex.symbols) { SymbolIsLocal(f.path, ex, id); }
      }
    }
  }

  lemma {:induction false} PassOwned(ix: Index, files: seq<File>)
    requires Owned(ix) && WellFormed(files)
    ensures Owned(Pass(ix, files))
  {
    if files != [] {
      PassOwned(ix, files[..|files| - 1]);
      OwnedAfter(Pass(ix, files[..|files| - 1]), files[|files| - 1]);
    }
  }

  lemma SplitLast(f: File, files: seq<File>)
    requires files != []
    ensures f in files <==> f in files[..|files| - 1] || f == files[|files| - 1]
  {
    assert files == files[..|files| - 1] + [files[|files| - 1]];
  }

  lemma SamePathSameFile(files: seq<File>, f: File, g: File)
    requires WellFormed(files) && f in files && g in files && f.path == g.path
    ensures f == g
  {
    var i :| 0 <= i < |files| && files[i] == f;
    var j :| 0 <= j < |files| && files[j] == g;
  }

  /** A file before the last shares neither path nor symbols with it. */
  lemma LastDiffers(files: seq<File>, f: File, id: SymbolId)
    requires WellFormed(files) && files != [] && f in files
    ensures f != files[|files| - 1] ==> f.path != files[|files| - 1].path
    ensures f != files[|files| - 1] && OwnedBy(id, f.path) ==> !OwnedBy(id, files[|files| - 1].path)
  {
    var last := files[|files| - 1];
    assert last in files;
    if f.path == last.path { SamePathSameFile(files, f, last); }
    if OwnedBy(id, f.path) && OwnedBy(id, last.path) { OwnerUnique(id, f.path, last.path); }
  }

  lemma OwnerSplit(files: seq<File>, id: SymbolId)
    requires files != []
    ensures var last := files[|files| - 1];
      OwnerIn(files, id) <==> OwnerIn(files[..|files| - 1], id) || (last.extraction.Some? && OwnedBy(id, last.path))
  {
    var rest, last := files[..|files| - 1], files[|files| - 1];
    SplitLast(last, files);
    if OwnerIn(files, id) {
      var f :| Parsed(f, files) && OwnedBy(id, f.path);
      SplitLast(f, files);
      assert f == last || Parsed(f, rest);
    }
    if OwnerIn(rest, id) {
      var f :| Parsed(f, rest) && OwnedBy(id, f.path);
      SplitLast(f, files);
      assert Parsed(f, files);
    }
    assert last.extraction.Some? ==> Parsed(last, files);
  }

  lemma CoversSplit(files: seq<File>, path: string)
    requires files != []
    ensures var last := files[|files| - 1];
      Covers(files, path) <==> Covers(files[..|files| - 1], path) || (last.extraction.Some? && last.path == path)
  {
    var rest, last := files[..|files| - 1], files[|files| - 1];
    SplitLast(last, files);
    if Covers(files, path) {
      var f :| Parsed(f, files) && f.path == path;
      SplitLast(f, files);
      assert f == last || Parsed(f, rest);
    }
    if Covers(rest, path) {
      var f :| Parsed(f, rest) && f.path == path;
      SplitLast(f, files);
      assert Parsed(f, files);
    }
    assert last.extraction.Some? ==> Parsed(last, files);
  }

  // ----- the first pass settles the symbols -----

  ghost predicate OwnerIn(files: seq<File>, id: SymbolId) {
    exists f :: Parsed(f, files) && OwnedBy(id, f.path)
  }

  lemma {:induction false} PassSymbols(ix: Index, files: seq<File>, id: SymbolId)
    requires Owned(ix) && WellFormed(files)
    ensures var after := Pass(ix, files).symbols;
      && (forall f :: Parsed(f, files) && OwnedBy(id, f.path) ==>
            (id in after <==> id in ClaimMap(f.extraction.value.symbols))
            && (id in after ==> after[id] == ClaimMap(f.extraction.value.symbols)[id]))
      && (!OwnerIn(files, id) ==>
            (id in after <==> id in ix.symbols) && (id in after ==> after[id] == ix.symbols[id]))
  {
    if files != [] {
      var rest, last := files[..|files| - 1], files[|files| - 1];
      PassSymbols(ix, rest, id);
      PassOwned(ix, rest);
      var before := Pass(ix, rest);
      assert last in files;
      if last.extraction.Some? { SymbolsAfter(before, last.path, last.extraction.value, id); }
      forall f | Parsed(f, files) && OwnedBy(id, f.path)
        ensures f == last || (Parsed(f, rest) && !OwnedBy(id, last.path))
      {
        SplitLast(f, files);
        LastDiffers(files, f, id);
      }
      OwnerSplit(files, id);
    }
  }

  lemma {:induction false} AllSymbolsAt(files: seq<File>, id: SymbolId)
    requires WellFormed(files)
    ensures forall f :: Parsed(f, files) && OwnedBy(id, f.path) ==>
      (id in AllSymbols(files) <==> id in ClaimMap(f.extraction.value.symbols))
      && (id in AllSymbols(files) ==> AllSymbols(files)[id] == ClaimMap(f.extraction.value.symbols)[id])
    ensures !OwnerIn(files, id) ==> id !in AllSymbols(files)
  {
    if files != [] {
      var rest, last := files[..|files| - 1], files[|files| - 1];
      AllSymbolsAt(rest, id);
      assert last in files;
      if last.extraction.Some? && id in ClaimMap(last.extraction.value.symbols) {
        SymbolIsLocal(last.path, last.extraction.value, id);
      }
      forall f | Parsed(f, files) && OwnedBy(id, f.path)
        ensures f == last || (Parsed(f, rest) && !OwnedBy(id, last.path))
      {
        SplitLast(f, files);
        LastDiffers(files, f, id);
      }
      OwnerSplit(files, id);
    }
  }

  /** After one pass, in any order, the symbol table is complete. */
  lemma OnePassCompletesSymbols(ix: Index, files: seq<File>)
    requires WellFormed(files) && MentionsOnly(ix, files)
    ensures Pass(ix, files).symbols == AllSymbols(files)
  {
    var a, b := Pass(ix, files).symbols, AllSymbols(files);
    forall id ensures (id in a <==> id in b) && (id in a ==> a[id] == b[id]) {
      PassSymbols(ix, files, id);
      AllSymbolsAt(files, id);
      if id in ix.symbols { MentionedIsOwned(ix, files, id); }
      if OwnerIn(files, id) { var f :| Parsed(f, files) && OwnedBy(id, f.path); }
    }
    assert a.Keys == b.Keys;
  }

  lemma MentionedIsOwned(ix: Index, files: seq<File>, id: SymbolId)
    requires MentionsOnly(ix, files) && id in ix.symbols
    ensures OwnerIn(files, id)
  {
    var f :| Parsed(f, files) && f.path == ix.symbols[id].path;
    assert OwnedBy(id, f.path);
  }

  // ----- later passes settle the relations -----

  /** The symbol table already says what this file says of itself. */
  ghost predicate Knows(syms: Symbols, f: File) {
    f.extraction.Some? ==>
      && syms + ClaimMap(f.extraction.value.symbols) == syms
      && forall id :: id in syms && syms[id].path == f.path ==> id in ClaimMap(f.extraction.value.symbols)
  }

  lemma CompleteKnows(files: seq<File>, f: File)
    requires WellFormed(files) && f in files
    ensures Knows(AllSymbols(files), f)
  {
    if f.extraction.Some? {
      var syms, own := AllSymbols(files), ClaimMap(f.extraction.value.symbols);
      assert Parsed(f, files);
      forall id | id in own ensures id in syms && syms[id] == own[id] {
        SymbolIsLocal(f.path, f.extraction.value, id);
        AllSymbolsAt(files, id);
      }
      assert syms + own == syms;
      forall id | id in syms && syms[id].path == f.path ensures id in own {
        AllSymbolsAt(files, id);
        var g :| Parsed(g, files) && OwnedBy(id, g.path);
        SymbolIsLocal(g.path, g.extraction.value, id);
        SamePathSameFile(files, f, g);
      }
    }
  }

  /** With a known symbol table, indexing replaces the file's own relations and nothing else. */
  lemma KnownAfter(ix: Index, f: File, k: RelationKey)
    requires f.extraction.Some? && Local(f.path, f.extraction.value) && Knows(ix.symbols, f)
    ensures IndexFile(ix, f).symbols == ix.symbols
    ensures var after := IndexFile(ix, f).relations;
      var new_ := NewRelations(f.extraction.value, ix.symbols);
      if k.siteFile == f.path then (k in after <==> k in new_) && (k in after ==> after[k] == new_[k])
      else (k in after <==> k in ix.relations) && (k in after ==> after[k] == ix.relations[k])
  {
    var ex := f.extraction.value;
    assert RemovedSymbols(ix, f.path, ex) == {};
    RelationsAfter(ix, f.path, ex, true, k);
    if k in NewRelations(ex, ix.symbols) { NewRelationsSited(f.path, ex, ix.symbols, k); }
  }

  lemma {:induction false} PassRelations(ix: Index, files: seq<File>, k: RelationKey)
    requires WellFormed(files) && (forall f :: f in files ==> Knows(ix.symbols, f))
    ensures Pass(ix, files).symbols == ix.symbols
    ensures var after := Pass(ix, files).relations;
      && (forall f :: Parsed(f, files) && k.siteFile == f.path ==>
            (k in after <==> k in NewRelations(f.extraction.value, ix.symbols))
            && (k in after ==> after[k] == NewRelations(f.extraction.value, ix.symbols)[k]))
      && (!Covers(files, k.siteFile) ==>
            (k in after <==> k in ix.relations) && (k in after ==> after[k] == ix.relations[k]))
  {
    if files != [] {
      var rest, last := files[..|files| - 1], files[|files| - 1];
      PassRelations(ix, rest, k);
      assert last in files;
      if last.extraction.Some? { KnownAfter(Pass(ix, rest), last, k); }
      forall f | Parsed(f, files) && k.siteFile == f.path
        ensures f == last || (Parsed(f, rest) && last.path != f.path)
      {
        SplitLast(f, files);
        LastDiffers(files, f, "");
      }
      CoversSplit(files, k.siteFile);
    }
  }

  lemma {:induction false} AllRelationsAt(files: seq<File>, syms: Symbols, k: RelationKey)
    requires WellFormed(files)
    ensures forall f :: Parsed(f, files) && k.siteFile == f.path ==>
      (k in AllRelations(files, syms) <==> k in NewRelations(f.extraction.value, syms))
      && (k in AllRelations(files, syms) ==> AllRelations(files, syms)[k] == NewRelations(f.extraction.value, syms)[k])
    ensures !Covers(files, k.siteFile) ==> k !in AllRelations(files, syms)
  {
    if files != [] {
      var rest, last := files[..|files| - 1], files[|files| - 1];
      AllRelationsAt(rest, syms, k);
      assert last in files;
      if last.extraction.Some? && k in NewRelations(last.extraction.value, syms) {
        NewRelationsSited(last.path, last.extraction.value, syms, k);
      }
      forall f | Parsed(f, files) && k.siteFile == f.path
        ensures f == last || (Parsed(f, rest) && last.path != f.path)
      {
        SplitLast(f, files);
        LastDiffers(files, f, "");
      }
      CoversSplit(files, k.siteFile);
    }
  }

  /** A pass that starts from the complete symbol table ends with the complete index. */
  lemma KnownSymbolsComplete(ix: Index, files: seq<File>)
    requires WellFormed(files) && ix.symbols == AllSymbols(files)
    requires forall k :: k in ix.relations ==> Covers(files, k.siteFile)
    ensures Pass(ix, files) == Complete(files)
  {
    forall f | f in files ensures Knows(ix.symbols, f) { CompleteKnows(files, f); }
    var a, b := Pass(ix, files).relations, AllRelations(files, ix.symbols);
    forall k ensures (k in a <==> k in b) && (k in a ==> a[k] == b[k]) && Pass(ix, files).symbols == ix.symbols {
      PassRelations(ix, files, k);
      AllRelationsAt(files, ix.symbols, k);
      if Covers(files, k.siteFile) { var f :| Parsed(f, files) && f.path == k.siteFile; }
    }
    assert a.Keys == b.Keys;
    PassRelations(ix, files, RelationKey("", "", "", "", 0, 0));
  }

  // ----- the theorems -----

  lemma SymbolsAlike(a: seq<File>, b: seq<File>)
    requires WellFormed(a) && WellFormed(b) && SameFiles(a, b)
    ensures AllSymbols(a) == AllSymbols(b)
  {
    hide WellFormed, AllSymbols, OwnedBy;
    var sa, sb := AllSymbols(a), AllSymbols(b);
    forall id ensures (id in sa <==> id in sb) && (id in sa ==> sa[id] == sb[id]) {
      AllSymbolsAt(a, id);
      AllSymbolsAt(b, id);
      if OwnerIn(a, id) { var f :| Parsed(f, a) && OwnedBy(id, f.path); assert Parsed(f, b); }
      if OwnerIn(b, id) { var f :| Parsed(f, b) && OwnedBy(id, f.path); assert Parsed(f, a); }
    }
    assert sa.Keys == sb.Keys;
  }

  lemma RelationsAlike(a: seq<File>, b: seq<File>, syms: Symbols)
    requires WellFormed(a) && WellFormed(b) && SameFiles(a, b)
    ensures AllRelations(a, syms) == AllRelations(b, syms)
  {
    hide WellFormed, AllRelations, NewRelations;
    var ra, rb := AllRelations(a, syms), AllRelations(b, syms);
    forall k ensures (k in ra <==> k in rb) && (k in ra ==> ra[k] == rb[k]) {
      AllRelationsAt(a, syms, k);
      AllRelationsAt(b, syms, k);
      if Covers(a, k.siteFile) { var f :| Parsed(f, a) && f.path == k.siteFile; assert Parsed(f, b); }
      if Covers(b, k.siteFile) { var f :| Parsed(f, b) && f.path == k.siteFile; assert Parsed(f, a); }
    }
    assert ra.Keys == rb.Keys;
  }

  /** The complete index is a matter of which files there are, not of their order. */
  lemma OrderIrrelevant(a: seq<File>, b: seq<File>)
    requires WellFormed(a) && WellFormed(b) && SameFiles(a, b)
    ensures Complete(a) == Complete(b)
  {
    hide WellFormed, SameFiles, AllSymbols, AllRelations;
    SymbolsAlike(a, b);
    RelationsAlike(a, b, AllSymbols(a));
  }

  /** A pass creates no relation sited outside its files. */
  lemma {:induction false} PassMentions(ix: Index, files: seq<File>, all: seq<File>, k: RelationKey)
    requires WellFormed(files) && (forall f :: f in files ==> f in all)
    requires k in Pass(ix, files).relations && (k in ix.relations ==> Covers(all, k.siteFile))
    ensures Covers(all, k.siteFile)
  {
    if files != [] {
      var rest, last := files[..|files| - 1], files[|files| - 1];
      assert last in files;
      if k in Pass(ix, rest).relations {
        PassMentions(ix, rest, all, k);
      } else {
        RelationsAfter(Pass(ix, rest), last.path, last.extraction.value, true, k);
        NewRelationsSited(last.path, last.extraction.value, Pass(ix, rest).symbols, k);
        assert Parsed(last, all);
      }
    }
  }

  /** Two passes, each in its own order, from any index of these files, reach the complete index. */
  lemma TwoPassesComplete(ix: Index, first: seq<File>, second: seq<File>)
    requires WellFormed(first) && WellFormed(second) && SameFiles(first, second)
    requires MentionsOnly(ix, first)
    ensures Pass(Pass(ix, first), second) == Complete(first)
  {
    var mid := Pass(ix, first);
    OnePassCompletesSymbols(ix, first);
    OrderIrrelevant(first, second);
    forall k | k in mid.relations ensures Covers(second, k.siteFile) {
      PassMentions(ix, first, first, k);
      var f :| Parsed(f, first) && f.path == k.siteFile;
      assert Parsed(f, second);
    }
    KnownSymbolsComplete(mid, second);
  }

  /** A third pass, in any order, changes nothing. */
  lemma ThirdPassIdle(files: seq<File>, again: seq<File>)
    requires WellFormed(files) && WellFormed(again) && SameFiles(files, again)
    ensures Pass(Complete(files), again) == Complete(files)
  {
    OrderIrrelevant(files, again);
    forall k | k in Complete(again).relations ensures Covers(again, k.siteFile) {
      AllRelationsAt(again, AllSymbols(again), k);
    }
    KnownSymbolsComplete(Complete(again), again);
  }

  // ----- why one pass is not enough -----

  function Calling(o: Origin): Extraction {
    Extraction([], [], [Call(o, "b", "f", None)], [], [], [])
  }

  function Called(callee: SymbolContent): Extraction {
    Extraction([Claim("b.py:f#function", callee)], [], [], [], [], [])
  }

  lemma CallResolves(syms: Symbols, o: Origin, callee: SymbolContent)
    requires callee.path == "b.py" && callee.qualname == "f" && callee.kind == "function"
    requires syms == map["b.py:f#function" := callee] || syms == map[]
    ensures var k := KeyAt(o, "b.py:f#function", "calls");
      (k in NewRelations(Calling(o), syms) <==> syms != map[]) && NewRelations(Called(callee), syms) == map[]
  {
    var call := Call(o, "b", "f", None);
    assert Items(Calling(o)) == [call] by {
      var none: seq<Deferred> := [];
      assert [call][..0] == none;
      assert CallsWhere(none, false) == none && CallsWhere(none, true) == none;
      assert CallsWhere([call], false) == none + [call] && CallsWhere([call], true) == none + none;
    }
    assert Items(Called(callee)) == [];
    assert PathToDotted("b.py") == "b";
    assert ResolveAll(syms, [Call(o, "b", "f", None)]) == map[] + Resolve(syms, Call(o, "b", "f", None));
    if syms != map[] { assert "b.py:f#function" in Candidates(syms, "f", "function", "b"); }
  }

  /** A file indexed before the one it calls into leaves that call unresolved; the complete index has it. */
  lemma OnePassMayMiss(o: Origin, callee: SymbolContent)
    requires o.siteFile == "a.py"
    requires callee.path == "b.py" && callee.qualname == "f" && callee.kind == "function"
    ensures var files := [File("a.py", Some(Calling(o))), File("b.py", Some(Called(callee)))];
      var k := KeyAt(o, "b.py:f#function", "calls");
      k !in Pass(Index(map[], map[]), files).relations && k in Complete(files).relations
  {
    hide NewRelations;
    var a, b := File("a.py", Some(Calling(o))), File("b.py", Some(Called(callee)));
    var k, empty := KeyAt(o, "b.py:f#function", "calls"), Index(map[], map[]);
    CallResolves(map[], o, callee);
    CallResolves(map["b.py:f#function" := callee], o, callee);
    assert [a, b][..1] == [a] && [a][..0] == [];
    assert Pass(empty, []) == empty;
    assert Pass(empty, [a]) == IndexFile(empty, a);
    assert Pass(empty, [a, b]) == IndexFile(IndexFile(empty, a), b);
    RelationsAfter(empty, "a.py", Calling(o), true, k);
    RelationsAfter(IndexFile(empty, a), "b.py", Called(callee), true, k);
    assert IndexFile(empty, a).symbols == map[];
    assert AllSymbols([a]) == map[];
    assert AllSymbols([a, b]) == map["b.py:f#function" := callee];
    assert k in AllRelations([a], AllSymbols([a, b]));
  }
}
