/**
 What a pass over an index that is already complete does to the histories. The live contents stay
 as they are while each file's facts are written again, in order: a row would be appended exactly
 where one key is written with two different contents. The extractor never gives a file such facts,
 so nothing is appended.
 */
module ThirdPass {
  import opened Wrappers
  import opened Facts
  import opened FactTable
  import opened Indexer
  import opened Connections
  import opened Job = IndexFile
  import opened TwoPass

  /** The live contents are already what the claims leave. */
  ghost predicate Holds<K, C>(t: Table<K, C>, claims: seq<Claim<K, C>>) {
    forall k :: k in ClaimMap(claims) ==> k in t.live && t.live[k].content == ClaimMap(claims)[k]
  }

  ghost predicate SameHistory<K, C>(t: Table<K, C>, t': Table<K, C>) {
    t.history == t'.history
  }

  ghost predicate Longer<K(!new), C>(t: Table<K, C>, t': Table<K, C>) {
    forall k :: |Rows(t, k)| <= |Rows(t', k)|
  }

  ghost predicate Grew<K(!new), C>(t: Table<K, C>, t': Table<K, C>) {
    exists k :: |Rows(t, k)| < |Rows(t', k)|
  }

  lemma {:induction false} RepeatedWritesIdle<K, C>(t: Table<K, C>, facts: seq<Fact<K, C>>)
    requires forall f :: f in facts ==> f.key in t.live && t.live[f.key].content == f.content
    ensures SameHistory(t, UpsertAll(t, facts)) && Contents(UpsertAll(t, facts)) == Contents(t)
  {
    if facts != [] {
      var before, last := facts[..|facts| - 1], facts[|facts| - 1];
      RepeatedWritesIdle(t, before);
      assert last in facts;
      var m := UpsertAll(t, before);
      assert last.key in Contents(m) && Contents(m)[last.key] == last.content;
      ContentsUpsert(m, last);
      assert Contents(t)[last.key := last.content] == Contents(t);
    }
  }

  lemma {:induction false} WritesAppend<K(!new), C>(t: Table<K, C>, facts: seq<Fact<K, C>>)
    ensures Longer(t, UpsertAll(t, facts))
  {
    if facts != [] {
      WritesAppend(t, facts[..|facts| - 1]);
    }
  }

  /** Writing a content that is not the live one appends a row sooner or later. */
  lemma {:induction false} ChangedWritesAppend<K(!new), C(!new)>(t: Table<K, C>, facts: seq<Fact<K, C>>, f: Fact<K, C>)
    requires f in facts && f.key in t.live && t.live[f.key].content != f.content
    ensures |Rows(t, f.key)| < |Rows(UpsertAll(t, facts), f.key)|
  {
    var before, last := facts[..|facts| - 1], facts[|facts| - 1];
    var m := UpsertAll(t, before);
    assert facts == before + [last];
    if g :| g in before && g.key == f.key && t.live[f.key].content != g.content {
      ChangedWritesAppend(t, before, g);
    } else {
      KeepsContent(t, before, f.key);
      WritesAppend(t, before);
    }
  }

  lemma {:induction false} KeepsContent<K, C>(t: Table<K, C>, facts: seq<Fact<K, C>>, key: K)
    requires key in t.live && forall f :: f in facts && f.key == key ==> f.content == t.live[key].content
    ensures key in UpsertAll(t, facts).live && UpsertAll(t, facts).live[key].content == t.live[key].content
  {
    if facts != [] {
      assert facts == facts[..|facts| - 1] + [facts[|facts| - 1]];
      KeepsContent(t, facts[..|facts| - 1], key);
    }
  }

  /** Claims that hold already change the history exactly if some key is claimed with two contents. */
  lemma ClaimsAgain<K(!new), C(!new)>(t: Table<K, C>, claims: seq<Claim<K, C>>, at: string)
    requires Holds(t, claims)
    ensures var t' := UpsertAll(t, Stamp(claims, at));
      && Contents(t') == Contents(t) && Longer(t, t')
      && (SameHistory(t, t') <==> OneContent(claims))
      && (!OneContent(claims) ==> Grew(t, t'))
  {
    var facts := Stamp(claims, at);
    WritesAppend(t, facts);
    ContentsUpserted(t, claims, at);
    assert Contents(t) + ClaimMap(claims) == Contents(t);
    forall c | c in claims ensures c.key in ClaimMap(claims) && Claim(c.key, ClaimMap(claims)[c.key]) in claims {
      ClaimMapKeys(claims, c.key);
    }
    if OneContent(claims) {
      forall f | f in facts ensures f.key in t.live && t.live[f.key].content == f.content {
        var i :| 0 <= i < |facts| && facts[i] == f;
        assert claims[i] in claims;
      }
      RepeatedWritesIdle(t, facts);
    } else {
      var c :| c in claims && ClaimMap(claims)[c.key] != c.content;
      var i :| 0 <= i < |claims| && claims[i] == c;
      assert facts[i] in facts;
      ChangedWritesAppend(t, facts, facts[i]);
    }
  }

  // ----- one file -----

  /** Indexing the file again finds everything as it writes it. */
  ghost predicate Settled(db: Database, path: string, ex: Extraction, written: seq<RelationClaim>) {
    && ClaimMap(written) == NewRelations(ex, Live(db).symbols)
    && Holds(db.symbols, ex.symbols) && Holds(db.relations, written)
    && RemovedSymbols(Live(db), path, ex) == {} && Unsupported(Live(db), path, ex, true) == {}
  }

  ghost predicate SameHistories(db: Database, db': Database) {
    SameHistory(db.symbols, db'.symbols) && SameHistory(db.relations, db'.relations)
  }

  ghost predicate OnlyLonger(db: Database, db': Database) {
    Longer(db.symbols, db'.symbols) && Longer(db.relations, db'.relations)
  }

  ghost predicate SomeGrew(db: Database, db': Database) {
    Grew(db.symbols, db'.symbols) || Grew(db.relations, db'.relations)
  }

  lemma FileAgain(db: Database, path: string, ex: Extraction, at: string, written: seq<RelationClaim>)
    requires Settled(db, path, ex, written)
    ensures var after := Reconcile(db, path, ex, at, true, written);
      && Live(after) == Live(db) && OnlyLonger(db, after)
      && (SameHistories(db, after) <==> OneContent(ex.symbols) && OneContent(written))
      && (!SameHistories(db, after) ==> SomeGrew(db, after))
  {
    ClaimsAgain(db.symbols, ex.symbols, at);
    ClaimsAgain(db.relations, written, at);
    NothingDeleted(db, path, ex, at, written);
    hide OneContent, Holds, SameHistory, Longer, Grew, Reconcile, Contents, UpsertAll, Stamp;
  }

  lemma NothingDeleted(db: Database, path: string, ex: Extraction, at: string, written: seq<RelationClaim>)
    requires RemovedSymbols(Live(db), path, ex) == {} && Unsupported(Live(db), path, ex, true) == {}
    ensures var after := Reconcile(db, path, ex, at, true, written);
      && after.symbols == UpsertAll(db.symbols, Stamp(ex.symbols, at))
      && after.relations == UpsertAll(db.relations, Stamp(written, at))
  {
    hide UpsertAll, Stamp, RemovedSymbols, Unsupported, DeleteAll, Diffed;
    DeleteNone(UpsertAll(db.symbols, Stamp(ex.symbols, at)), at);
    DeleteNone(UpsertAll(db.relations, Stamp(written, at)), at);
    var stale := Pointing(Diffed(Live(db), path, ex, true), {});
    assert stale == {};
    assert {} + stale == {};
  }

  lemma CompleteIsSettled(db: Database, files: seq<File>, f: File, written: seq<RelationClaim>)
    requires WellFormed(files) && Parsed(f, files) && Live(db) == Complete(files)
    requires ClaimMap(written) == NewRelations(f.extraction.value, AllSymbols(files))
    ensures Settled(db, f.path, f.extraction.value, written)
  {
    var ex, syms := f.extraction.value, AllSymbols(files);
    CompleteKnows(files, f);
    hide WellFormed, AllSymbols, NewRelations, AllRelations, Local;
    assert Live(db).symbols == syms && Live(db).relations == AllRelations(files, syms);
    assert Holds(db.symbols, ex.symbols) by {
      forall id | id in ClaimMap(ex.symbols) ensures id in syms && syms[id] == ClaimMap(ex.symbols)[id] {
        assert (syms + ClaimMap(ex.symbols))[id] == syms[id];
      }
      assert Contents(db.symbols) == syms;
    }
    forall k | k in ClaimMap(written)
      ensures k in AllRelations(files, syms) && AllRelations(files, syms)[k] == ClaimMap(written)[k]
    {
      NewRelationIsOwn(files, f, syms, k);
      AllRelationsAt(files, syms, k);
    }
    assert Holds(db.relations, written) by { assert Contents(db.relations) == AllRelations(files, syms); }
    forall k | k in AllRelations(files, syms) && k.siteFile == f.path ensures k in NewRelations(ex, syms) {
      AllRelationsAt(files, syms, k);
    }
  }

  lemma NewRelationIsOwn(files: seq<File>, f: File, syms: Symbols, k: RelationKey)
    requires WellFormed(files) && Parsed(f, files) && k in NewRelations(f.extraction.value, syms)
    ensures k.siteFile == f.path
  {
    NewRelationsSited(f.path, f.extraction.value, syms, k);
  }

  // ----- a whole pass -----

  /** The files of a pass indexed one after another, `writes[i]` being the relations the i-th of them writes. */
  function WriteAgain(db: Database, files: seq<File>, writes: seq<seq<RelationClaim>>, at: string): Database
    requires |writes| == |files|
  {
    if files == [] then db
    else
      var k := |files| - 1;
      var before := WriteAgain(db, files[..k], writes[..k], at);
      match files[k].extraction
      case None => before
      case Some(ex) => Reconcile(before, files[k].path, ex, at, true, writes[k])
  }

  /** The relations a file writes are the ones resolved against the complete symbols, in some order. */
  ghost predicate WritesOf(all: seq<File>, f: File, written: seq<RelationClaim>) {
    f in all && (f.extraction.Some? ==> Writes(f.extraction.value, AllSymbols(all), written))
  }

  ghost predicate WrittenOnce(f: File, written: seq<RelationClaim>) {
    f.extraction.Some? ==> OneContent(f.extraction.value.symbols) && OneContent(written)
  }

  /**
   A pass over a complete index leaves the live contents as they are, and the histories too
   exactly if no file writes one key with two contents; where one does, rows are appended.
   */
  lemma {:induction false} ThirdPassHistories(db: Database, all: seq<File>, files: seq<File>,
                                              writes: seq<seq<RelationClaim>>, at: string)
    requires WellFormed(all) && Live(db) == Complete(all) && |writes| == |files|
    requires forall i :: 0 <= i < |files| ==> WritesOf(all, files[i], writes[i])
    ensures var after := WriteAgain(db, files, writes, at);
      && Live(after) == Complete(all) && OnlyLonger(db, after)
      && (SameHistories(db, after) <==> forall i :: 0 <= i < |files| ==> WrittenOnce(files[i], writes[i]))
      && (!SameHistories(db, after) ==> SomeGrew(db, after))
    decreases |files|
  {
    hide WellFormed, Complete, Live, Reconcile, Longer, Grew, SameHistory, OneContent, NewRelations, AllSymbols;
    if files == [] {
      LongerThanItself(db);
    } else {
      var k := |files| - 1;
      ThirdPassHistories(db, all, files[..k], writes[..k], at);
      var mid, after := WriteAgain(db, files[..k], writes[..k], at), WriteAgain(db, files, writes, at);
      assert WritesOf(all, files[k], writes[k]);
      if files[k].extraction.Some? {
        var ex := files[k].extraction.value;
        assert Parsed(files[k], all);
        CompleteIsSettled(mid, all, files[k], writes[k]);
        FileAgain(mid, files[k].path, ex, at, writes[k]);
        LongerChains(db, mid, after);
      }
      assert forall i :: 0 <= i < k ==> files[..k][i] == files[i] && writes[..k][i] == writes[i];
    }
  }

  lemma LongerThanItself(db: Database)
    ensures OnlyLonger(db, db) && SameHistories(db, db)
  {
  }

  lemma LongerChains(a: Database, b: Database, c: Database)
    requires OnlyLonger(a, b) && OnlyLonger(b, c)
    ensures OnlyLonger(a, c)
    ensures SomeGrew(a, b) || SomeGrew(b, c) ==> SomeGrew(a, c)
    ensures SomeGrew(a, c) ==> !SameHistories(a, c)
    ensures SameHistories(a, b) && SameHistories(b, c) ==> SameHistories(a, c)
  {
    hide Rows;
    TableChains(a.symbols, b.symbols, c.symbols);
    TableChains(a.relations, b.relations, c.relations);
    hide Longer, Grew, SameHistory;
  }

  lemma TableChains<K(!new), C>(a: Table<K, C>, b: Table<K, C>, c: Table<K, C>)
    requires Longer(a, b) && Longer(b, c)
    ensures Longer(a, c)
    ensures Grew(a, b) || Grew(b, c) ==> Grew(a, c)
    ensures Grew(a, c) ==> !SameHistory(a, c)
    ensures SameHistory(a, b) && SameHistory(b, c) ==> SameHistory(a, c)
  {
    if k :| |Rows(a, k)| < |Rows(b, k)| { assert |Rows(b, k)| <= |Rows(c, k)|; }
    if k :| |Rows(b, k)| < |Rows(c, k)| { assert |Rows(a, k)| <= |Rows(b, k)|; }
  }

  // ----- what the extractor promises makes a further pass silent -----

  /** A file that knows the symbols of all of them writes no key with two contents. */
  lemma WritesOneContent(ex: Extraction, syms: Symbols, written: seq<RelationClaim>)
    requires SpeaksOnce(ex) && syms + ClaimMap(ex.symbols) == syms && Writes(ex, syms, written)
    ensures OneContent(ex.symbols) && OneContent(written)
  {
    hide SpeaksOnce, Items, Resolve, ClaimMap, NewRelations;
    assert DistinctKeys(ex.symbols) && OneContent(ex.relations) by { PromisesOfClaims(ex); }
    DistinctIsOneContent(ex.symbols);
    hide DistinctKeys;
    forall c, d | c in written && d in written && c.key == d.key ensures c.content == d.content {
      if c in ex.relations && d in ex.relations {
      } else if c in ex.relations {
        var e :| e in Items(ex) && Held(Resolve(syms, e), d);
        ExtractedIsNotDeferred(ex, syms, c, e);
      } else if d in ex.relations {
        var e :| e in Items(ex) && Held(Resolve(syms, e), c);
        ExtractedIsNotDeferred(ex, syms, d, e);
      } else {
        var e :| e in Items(ex) && Held(Resolve(syms, e), c);
        var f :| f in Items(ex) && Held(Resolve(syms, f), d);
        SameRelationSameItem(ex, syms, e, f, c.key);
      }
    }
  }

  lemma PromisesOfClaims(ex: Extraction)
    requires SpeaksOnce(ex)
    ensures DistinctKeys(ex.symbols) && OneContent(ex.relations)
  {
  }

  ghost predicate AllSpeakOnce(files: seq<File>) {
    forall f :: f in files && f.extraction.Some? ==> SpeaksOnce(f.extraction.value)
  }

  /** So a pass over a complete index, in whatever order, changes nothing at all and adds no history row. */
  lemma ThirdPassSilent(db: Database, all: seq<File>, files: seq<File>, writes: seq<seq<RelationClaim>>, at: string)
    requires WellFormed(all) && AllSpeakOnce(all) && Live(db) == Complete(all) && |writes| == |files|
    requires forall i :: 0 <= i < |files| ==> WritesOf(all, files[i], writes[i])
    ensures var after := WriteAgain(db, files, writes, at);
      Live(after) == Complete(all) && SameHistories(db, after)
  {
    ThirdPassHistories(db, all, files, writes, at);
    hide WellFormed, Complete, Live, WriteAgain, SameHistories, OnlyLonger, SpeaksOnce, OneContent, Writes, AllSymbols;
    forall i | 0 <= i < |files| ensures WrittenOnce(files[i], writes[i]) {
      assert WritesOf(all, files[i], writes[i]);
      if files[i].extraction.Some? {
        CompleteKnows(all, files[i]);
        WritesOneContent(files[i].extraction.value, AllSymbols(all), writes[i]);
      }
    }
  }

  lemma OneAgain(db: Database, all: seq<File>, f: File, at: string, written: seq<RelationClaim>)
    requires WellFormed(all) && AllSpeakOnce(all) && Parsed(f, all) && Live(db) == Complete(all)
    requires Writes(f.extraction.value, Live(db).symbols, written)
    ensures var after := Reconcile(db, f.path, f.extraction.value, at, true, written);
      Live(after) == Live(db) && SameHistories(db, after)
  {
    hide WellFormed, Reconcile, Live, SameHistories, OnlyLonger, SpeaksOnce, OneContent, AllSymbols;
    CompleteIsSettled(db, all, f, written);
    CompleteKnows(all, f);
    WritesOneContent(f.extraction.value, AllSymbols(all), written);
    FileAgain(db, f.path, f.extraction.value, at, written);
  }

  /**
   The jobs of a further pass on the connection, each with its own time of observation, and each
   free to fail: nothing but times of observation changes.
   */
  method IndexAgain(conn: Connection, ghost all: seq<File>, files: seq<File>)
    requires WellFormed(all) && AllSpeakOnce(all) && (forall f :: f in files ==> f in all)
    requires conn.working == conn.committed && Live(conn.committed) == Complete(all)
    modifies conn
    ensures conn.working == conn.committed && Live(conn.committed) == Complete(all)
    ensures SameHistories(old(conn.committed), conn.committed)
  {
    hide WellFormed, AllSpeakOnce, Complete, Live, Reconcile, Writes, IndexOne;
    for i := 0 to |files|
      invariant conn.working == conn.committed && Live(conn.committed) == Complete(all)
      invariant SameHistories(old(conn.committed), conn.committed)
    {
      ghost var db := conn.committed;
      var at: string := *;
      var r, written := Job.IndexFile(conn, files[i].path, files[i].extraction, at, true);
      if files[i].extraction.Some? && r != Failure(WriteFailed) {
        OneAgain(db, all, files[i], at, written);
      }
    }
  }
}
