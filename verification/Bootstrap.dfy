/**
 A repository's first indexing: two passes of per-file jobs on the writer's queue. The second
 pass is submitted when the last job of the first completes, and completion is announced when
 the last job of the second does.
 */
module Bootstrap {
  import opened Wrappers
  import opened Facts
  import opened FactTable
  import opened Indexer
  import opened TwoPass
  import opened Connections
  import Job = IndexFile

  /** One pass's shared counter. Every job counts when its future completes, failed or not. */
  class PassCountdown {
    var remaining: int

    constructor (files: nat)
      ensures remaining == files
    {
      remaining := files;
    }

    method OnJobDone() returns (done: bool)
      modifies this
      ensures remaining == old(remaining) - 1
      ensures done <==> remaining == 0
    {
      remaining := remaining - 1;
      done := remaining == 0;
    }
  }

  /** Over a whole pass, the completions announce the end exactly once: the last one does. */
  method CompleteAll(files: nat) returns (announcements: seq<nat>)
    ensures announcements == if files == 0 then [] else [files]
  {
    var countdown := new PassCountdown(files);
    announcements := [];
    for completed := 0 to files
      invariant countdown.remaining == files - completed
      invariant announcements == if completed > 0 && completed == files then [files] else []
    {
      var done := countdown.OnJobDone();
      if done { announcements := announcements + [completed + 1]; }
    }
  }

  /**
   The bootstrap thread submits, the writer executes what was submitted in order, and each
   future's callback comes some time after its job was executed. How these interleave, which
   submissions are refused and which jobs fail is open. A refused submission completes too.
   `submitted` lists the files in the order of submission, `executed` those the writer ran.
   */
  method RunBootstrap(conn: Connection, files: seq<File>)
    returns (ready: nat, failures: nat, refusals: nat, submitted: seq<File>, executed: seq<File>)
    requires conn.working == conn.committed
    modifies conn
    ensures ready == 1
    ensures submitted == files + files && |executed| + refusals == |submitted|
    ensures refusals == 0 ==> executed == files + files
    ensures conn.working == conn.committed
    ensures failures + refusals == 0 ==> Live(conn.committed) == Pass(Pass(Live(old(conn.committed)), files), files)
    ensures failures + refusals == 0 && WellFormed(files) && MentionsOnly(Live(old(conn.committed)), files) ==>
              Live(conn.committed) == Complete(files)
  {
    hide IndexFile, Live, Complete, WellFormed, MentionsOnly, Pass, Books;
    ghost var ix := Live(conn.committed);
    EmptyPass(ix);
    ready, failures, refusals, submitted, executed := 0, 0, 0, [], [];
    if files == [] { ready := 1; EmptyRun(ix); return; }
    var countdown := new PassCountdown(|files|);
    var second, queue: seq<File>, next: nat, uncalled: nat := false, [], 0, 0;
    ghost var middle, at: nat := ix, 0;
    BooksOpen(files);
    while ready == 0
      invariant fresh(countdown) && conn.working == conn.committed
      invariant Books(files, second, next, at, queue, refusals, submitted, executed)
      invariant countdown.remaining == |files| - next + |queue| + uncalled && |queue| <= next <= |files|
      invariant at <= |files|
      invariant ready <= 1 && (ready == 1 <==> countdown.remaining == 0) && (ready == 1 ==> second)
      invariant failures + refusals == 0 ==> middle == if second then Pass(ix, files) else ix
      invariant failures + refusals == 0 ==> Live(conn.committed) == Pass(middle, files[..at])
      decreases if second then 0 else 1, |files| - next, |queue|, uncalled
    {
      var choice: nat := *;
      if next < |files| && (choice == 0 || (queue == [] && uncalled == 0)) {
        var refused: bool := *;
        BooksSubmit(files, second, next, at, queue, refusals, submitted, executed);
        submitted, next := submitted + [files[next]], next + 1;
        if refused {
          refusals, uncalled := refusals + 1, uncalled + 1;
        } else {
          queue := queue + [files[next - 1]];
        }
      } else if queue != [] && (choice == 1 || uncalled == 0) {
        var job := queue[0];
        BooksExecute(files, second, next, at, queue, refusals, submitted, executed);
        queue, executed, uncalled := queue[1..], executed + [job], uncalled + 1;
        var observedAt: string := *;
        var failed := RunJob(conn, job, observedAt);
        if failed { failures := failures + 1; }
        if refusals == 0 {
          PassNext(middle, files, at);
          at := at + 1;
        }
      } else {
        uncalled := uncalled - 1;
        var done := countdown.OnJobDone();
        if done {
          BooksPassEnds(files, second, at, refusals, submitted, executed);
          if second {
            ready := ready + 1;
          } else {
            EmptyPass(Live(conn.committed));
            second, next, at, middle := true, 0, 0, Live(conn.committed);
            assert files[..0] == [];
            countdown := new PassCountdown(|files|);
          }
        }
      }
    }
    BooksPassEnds(files, true, at, refusals, submitted, executed);
    if failures + refusals == 0 && WellFormed(files) && MentionsOnly(ix, files) {
      SameAsItself(files);
      TwoPassesComplete(ix, files, files);
    }
  }

  /** One job of the queue, failing or not. */
  method RunJob(conn: Connection, job: File, at: string) returns (failed: bool)
    requires conn.working == conn.committed
    modifies conn
    ensures conn.working == conn.committed
    ensures !failed ==> Live(conn.committed) == IndexFile(Live(old(conn.committed)), job)
  {
    hide IndexOne, Live, NewRelations, RemovedSymbols, Tombstoned, Job.Reconcile;
    var result, _ := Job.IndexFile(conn, job.path, job.extraction, at, true);
    failed := result.Failure?;
  }

  /**
   Where a bootstrap stands between the steps of its threads; without refusals `at` files of this
   pass are executed.
   */
  ghost predicate Books(files: seq<File>, second: bool, next: nat, at: nat, queue: seq<File>, refusals: nat,
                        submitted: seq<File>, executed: seq<File>) {
    var earlier := if second then files else [];
    && next <= |files|
    && submitted == earlier + files[..next]
    && |executed| + refusals + |queue| == |submitted|
    && (refusals == 0 ==> at <= next && queue == files[at..next] && executed == earlier + files[..at])
  }

  lemma BooksOpen(files: seq<File>)
    ensures Books(files, false, 0, 0, [], 0, [], [])
  {
  }

  lemma BooksSubmit(files: seq<File>, second: bool, next: nat, at: nat, queue: seq<File>, refusals: nat,
                    submitted: seq<File>, executed: seq<File>)
    requires Books(files, second, next, at, queue, refusals, submitted, executed) && next < |files|
    ensures var f := files[next];
      && Books(files, second, next + 1, at, queue + [f], refusals, submitted + [f], executed)
      && Books(files, second, next + 1, at, queue, refusals + 1, submitted + [f], executed)
  {
    assert files[..next + 1] == files[..next] + [files[next]];
  }

  lemma BooksExecute(files: seq<File>, second: bool, next: nat, at: nat, queue: seq<File>, refusals: nat,
                     submitted: seq<File>, executed: seq<File>)
    requires Books(files, second, next, at, queue, refusals, submitted, executed) && queue != []
    ensures var at' := if refusals == 0 then at + 1 else at;
      Books(files, second, next, at', queue[1..], refusals, submitted, executed + [queue[0]])
    ensures refusals == 0 ==> at < |files| && queue[0] == files[at]
  {
    if refusals == 0 { assert files[..at + 1] == files[..at] + [files[at]]; }
  }

  lemma BooksPassEnds(files: seq<File>, second: bool, at: nat, refusals: nat, submitted: seq<File>, executed: seq<File>)
    requires Books(files, second, |files|, at, [], refusals, submitted, executed)
    ensures submitted == (if second then files else []) + files && |executed| + refusals == |submitted|
    ensures refusals == 0 ==> at == |files| && executed == submitted && files[..at] == files
    ensures !second ==> Books(files, true, 0, 0, [], refusals, submitted, executed)
  {
    assert files[..|files|] == files;
  }

  lemma EmptyRun(ix: Index)
    ensures Pass(Pass(ix, []), []) == ix
    ensures WellFormed([]) && MentionsOnly(ix, []) ==> ix == Complete([])
  {
    if WellFormed([]) && MentionsOnly(ix, []) { TwoPassesComplete(ix, [], []); }
  }

  lemma SameAsItself(files: seq<File>)
    ensures SameFiles(files, files)
  {
  }

  lemma EmptyPass(ix: Index)
    ensures Pass(ix, []) == ix
  {
  }

  lemma PassNext(ix: Index, files: seq<File>, at: nat)
    requires at < |files|
    ensures Pass(ix, files[..at + 1]) == IndexFile(Pass(ix, files[..at]), files[at])
  {
    assert files[..at + 1][..at] == files[..at];
  }

  // ----- a file that is gone -----

  /** Its job indexes the empty text, then deletes whatever symbols are left under the path. */
  function IndexGone(ix: Index, path: string, empty: Extraction): Index {
    var indexed := IndexOne(ix, path, empty, true);
    Index(indexed.symbols - SymbolsOf(indexed, path), indexed.relations)
  }

  function SymbolsOf(ix: Index, path: string): set<SymbolId> {
    set id | id in ix.symbols && ix.symbols[id].path == path
  }

  /**
   The job for a vanished file. Indexing the empty text is one transaction; each delete after it
   is committed by itself. So the job may stop with some of the file's symbols still live, but
   the relations are then already as they will stay. What a failed delete leaves uncommitted is open.
   */
  method IndexGoneFile(conn: Connection, path: string, empty: Extraction, at: string)
    returns (ok: bool, ghost deleted: set<SymbolId>)
    requires conn.working == conn.committed
    modifies conn
    ensures ok ==>
              && conn.working == conn.committed
              && Live(conn.committed) == IndexGone(Live(old(conn.committed)), path, empty)
    ensures !ok ==>
              || conn.committed == old(conn.committed)
              || var indexed := IndexOne(Live(old(conn.committed)), path, empty, true);
                 && deleted <= SymbolsOf(indexed, path)
                 && Live(conn.committed) == Index(indexed.symbols - deleted, indexed.relations)
  {
    hide IndexOne, Live, NewRelations, RemovedSymbols, Tombstoned, SymbolsOf, Job.Reconcile;
    deleted := {};
    var result, _ := Job.IndexFile(conn, path, Some(empty), at, true);
    NothingLess(IndexOne(Live(old(conn.committed)), path, empty, true).symbols);
    if result.Failure? { return false, deleted; }
    ok, deleted := DeleteSymbolsOf(conn, path, at);
  }

  /** Deletes what is live under the path, one committed delete after another. */
  method DeleteSymbolsOf(conn: Connection, path: string, at: string) returns (ok: bool, ghost deleted: set<SymbolId>)
    requires conn.working == conn.committed
    modifies conn
    ensures var before := Live(old(conn.committed));
      && deleted <= SymbolsOf(before, path)
      && Live(conn.committed) == Index(before.symbols - deleted, before.relations)
      && (ok ==> conn.working == conn.committed && deleted == SymbolsOf(before, path))
  {
    hide Live, Delete, SymbolsOf;
    ghost var before := Live(conn.committed);
    deleted := {};
    NothingLess(before.symbols);
    var rest := set id | id in conn.working.symbols.live && conn.working.symbols.live[id].content.path == path;
    LeftUnderPath(conn.working, path);
    while rest != {}
      invariant conn.working == conn.committed
      invariant deleted + rest == SymbolsOf(before, path) && deleted !! rest
      invariant Live(conn.committed) == Index(before.symbols - deleted, before.relations)
      decreases rest
    {
      var id :| id in rest;
      ghost var db := conn.committed;
      var done := conn.DeleteSymbol(id, at, true);
      if !done { return false, deleted; }
      OneSymbolLess(db, id, at);
      LessTwice(before.symbols, deleted, {id});
      rest, deleted := rest - {id}, deleted + {id};
    }
    return true, deleted;
  }

  lemma NothingLess<K, V>(m: map<K, V>)
    ensures m - {} == m
  {
  }

  lemma LeftUnderPath(db: Database, path: string)
    ensures SymbolsOf(Live(db), path) == set id | id in db.symbols.live && db.symbols.live[id].content.path == path
  {
  }

  lemma OneSymbolLess(db: Database, id: SymbolId, at: string)
    ensures Live(db.(symbols := Delete(db.symbols, id, at))) == Index(Live(db).symbols - {id}, Live(db).relations)
  {
    assert Contents(Delete(db.symbols, id, at)) == Contents(db.symbols) - {id};
  }

  /** The symbols an index lost between two states. */
  function Lost(before: Index, after: Index): set<SymbolId> {
    before.symbols.Keys - after.symbols.Keys
  }

  /**
   The last deletes do not look at relations. So a relation into the vanished file survives
   exactly when it is sited elsewhere and targets a symbol the empty text still yields: the
   module's own symbol.
   */
  lemma GoneFileDangling(ix: Index, path: string, empty: Extraction, k: RelationKey)
    requires Owned(ix) && Local(path, empty) && NewRelations(empty, ix.symbols) == map[]
    ensures var after := IndexGone(ix, path, empty);
      && (forall id :: id in after.symbols ==> after.symbols[id].path != path)
      && (k in after.relations && k.target in Lost(ix, after) <==>
            && k in ix.relations && k.siteFile != path
            && k.target in ix.symbols && k.target in ClaimMap(empty.symbols))
  {
    RelationsAfter(ix, path, empty, true, k);
    SymbolsAfter(ix, path, empty, k.target);
    if k.target in ClaimMap(empty.symbols) { SymbolIsLocal(path, empty, k.target); }
    if k.target in ix.symbols && OwnedBy(k.target, path) { OwnerUnique(k.target, path, ix.symbols[k.target].path); }
  }

  lemma OneLost(path: string, id: SymbolId, c: SymbolContent, k: RelationKey, r: RelationContent)
    requires OwnedBy(id, path) && c.path == path && k.target == id && k.siteFile != path
    ensures var ix := Index(map[id := c], map[k := r]);
      var after := IndexGone(ix, path, Extraction([Claim(id, c)], [], [], [], [], []));
      k in after.relations && id in Lost(ix, after)
  {
    var ix, empty := Index(map[id := c], map[k := r]), Extraction([Claim(id, c)], [], [], [], [], []);
    assert empty.symbols[..0] == [];
    assert ClaimMap(empty.symbols) == map[id := c];
    assert Items(empty) == [];
    assert NewRelations(empty, ix.symbols) == map[];
    hide IndexOne, OwnedBy, Items;
    GoneFileDangling(ix, path, empty, k);
  }

  lemma ModuleIsOwned()
    ensures OwnedBy("b.py:#module", "b.py")
  {
    assert "b.py:#module"[5..] == "#module";
  }

  /**
   For example a call in `a.py` that enrichment traced to a place in `b.py` outside any function or
   class, and so to its module symbol, when `b.py` is deleted.
   */
  lemma ModuleRelationDangles(module_: SymbolContent, provider: string, version: string)
    requires module_.path == "b.py"
    ensures var id, k := "b.py:#module", RelationKey("a.py:f#function", "b.py:#module", "calls", "a.py", 2, 4);
      var ix := Index(map[id := module_], map[k := RelationContent(INFERRED, provider, version)]);
      var after := IndexGone(ix, "b.py", Extraction([Claim(id, module_)], [], [], [], [], []));
      k in after.relations && id in Lost(ix, after)
  {
    hide *;
    ModuleIsOwned();
    assert "a.py"[0] != "b.py"[0];
    OneLost("b.py", "b.py:#module", module_, RelationKey("a.py:f#function", "b.py:#module", "calls", "a.py", 2, 4),
            RelationContent(INFERRED, provider, version));
  }
}
