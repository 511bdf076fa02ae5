/**
 One database connection shared by the symbol, relation and generation stores. Any statement
 and any commit may fail.
 */
module Connections {
  import opened Wrappers
  import opened Facts
  import opened FactTable
  import opened Indexer

  datatype Database = Database(symbols: SymbolTable, relations: RelationTable, generation: nat)

  function Live(db: Database): Index {
    Index(Contents(db.symbols), Contents(db.relations))
  }

  datatype Error = WriteFailed | ReadBackFailed

  /**
   A connection sees its own uncommitted writes. Each statement, and each commit, either takes
   effect or fails without effect; which of the two is up to the database.
   */
  class Connection {
    var committed: Database
    var working: Database

    constructor (db: Database)
      ensures committed == db && working == db
    {
      committed := db;
      working := db;
    }

    method Commit() returns (ok: bool)
      modifies this
      ensures working == old(working)
      ensures committed == if ok then working else old(committed)
    {
      ok := *;
      if ok { committed := working; }
    }

    method Rollback()
      modifies this
      ensures committed == old(committed) && working == committed
    {
      working := committed;
    }

    /** A failed upsert may have written the live row and not the history row. */
    method UpsertSymbol(symbol: Symbol, commit: bool) returns (ok: bool)
      modifies this
      ensures ok ==> working == old(working).(symbols := Upsert(old(working).symbols, symbol))
      ensures committed == if ok && commit then working else old(committed)
    {
      var before := working.symbols;
      ok := *;
      if !ok { return; }
      working := working.(symbols := before.(live := before.live[symbol.key := symbol]));
      if ContentDiffers(before, symbol) {
        ok := *;
        if !ok { return; }
        working := working.(symbols := working.symbols.(
          history := before.history[symbol.key := Rows(before, symbol.key) + [Observed(symbol)]]));
      }
      if commit { ok := Commit(); }
    }

    method UpsertRelation(relation: Relation, commit: bool) returns (ok: bool)
      modifies this
      ensures ok ==> working == old(working).(relations := Upsert(old(working).relations, relation))
      ensures committed == if ok && commit then working else old(committed)
    {
      var before := working.relations;
      ok := *;
      if !ok { return; }
      working := working.(relations := before.(live := before.live[relation.key := relation]));
      if ContentDiffers(before, relation) {
        ok := *;
        if !ok { return; }
        working := working.(relations := working.relations.(
          history := before.history[relation.key := Rows(before, relation.key) + [Observed(relation)]]));
      }
      if commit { ok := Commit(); }
    }

    method DeleteSymbol(id: SymbolId, at: string, commit: bool) returns (ok: bool)
      modifies this
      ensures ok ==> working == old(working).(symbols := Delete(old(working).symbols, id, at))
      ensures committed == if ok && commit then working else old(committed)
    {
      var before := working.symbols;
      ok := *;
      if !ok { return; }
      working := working.(symbols := before.(live := before.live - {id}));
      ok := *;
      if !ok { return; }
      working := working.(symbols := working.symbols.(
        history := before.history[id := Rows(before, id) + [Tombstone(at)]]));
      if commit { ok := Commit(); }
    }

    method DeleteRelation(key: RelationKey, at: string, commit: bool) returns (ok: bool)
      modifies this
      ensures ok ==> working == old(working).(relations := Delete(old(working).relations, key, at))
      ensures committed == if ok && commit then working else old(committed)
    {
      var before := working.relations;
      ok := *;
      if !ok { return; }
      working := working.(relations := before.(live := before.live - {key}));
      ok := *;
      if !ok { return; }
      working := working.(relations := working.relations.(
        history := before.history[key := Rows(before, key) + [Tombstone(at)]]));
      if commit { ok := Commit(); }
    }

    /** Bumping the generation commits; reading the new generation back may still fail. */
    method BumpGeneration() returns (error: Option<Error>)
      modifies this
      ensures error == Some(WriteFailed) ==> committed == old(committed)
      ensures error != Some(WriteFailed) ==>
                committed == old(working).(generation := old(working).generation + 1) && working == committed
    {
      var ok: bool := *;
      if !ok { return Some(WriteFailed); }
      working := working.(generation := working.generation + 1);
      ok := Commit();
      if !ok { return Some(WriteFailed); }
      ok := *;
      if ok { error := None; } else { error := Some(ReadBackFailed); }
    }

    // ----- the loops of index_file -----

    method UpsertSymbols(symbols: seq<Symbol>) returns (ok: bool)
      modifies this
      ensures committed == old(committed)
      ensures ok ==> working == old(working).(symbols := UpsertAll(old(working).symbols, symbols))
    {
      ok := true;
      for i := 0 to |symbols|
        invariant committed == old(committed) && ok
        invariant working == old(working).(symbols := UpsertAll(old(working).symbols, symbols[..i]))
      {
        assert symbols[..i + 1][..i] == symbols[..i];
        ok := UpsertSymbol(symbols[i], false);
        if !ok { return; }
      }
      assert symbols[..|symbols|] == symbols;
    }

    method UpsertRelations(relations: seq<Relation>) returns (ok: bool)
      modifies this
      ensures committed == old(committed)
      ensures ok ==> working == old(working).(relations := UpsertAll(old(working).relations, relations))
    {
      ok := true;
      for i := 0 to |relations|
        invariant committed == old(committed) && ok
        invariant working == old(working).(relations := UpsertAll(old(working).relations, relations[..i]))
      {
        assert relations[..i + 1][..i] == relations[..i];
        ok := UpsertRelation(relations[i], false);
        if !ok { return; }
      }
      assert relations[..|relations|] == relations;
    }

    method DeleteSymbols(ids: set<SymbolId>, at: string) returns (ok: bool)
      modifies this
      ensures committed == old(committed)
      ensures ok ==> working == old(working).(symbols := DeleteAll(old(working).symbols, ids, at))
    {
      ok := true;
      var rest := ids;
      DeleteNone(working.symbols, at);
      while rest != {}
        invariant rest <= ids && committed == old(committed) && ok
        invariant working == old(working).(symbols := DeleteAll(old(working).symbols, ids - rest, at))
        decreases rest
      {
        var id :| id in rest;
        DeleteAllStep(old(working).symbols, ids - rest, id, at);
        assert ids - rest + {id} == ids - (rest - {id});
        rest := rest - {id};
        ok := DeleteSymbol(id, at, false);
        if !ok { return; }
      }
      assert ids - rest == ids;
    }

    method DeleteRelations(keys: set<RelationKey>, at: string) returns (ok: bool)
      modifies this
      ensures committed == old(committed)
      ensures ok ==> working == old(working).(relations := DeleteAll(old(working).relations, keys, at))
    {
      ok := true;
      var rest := keys;
      DeleteNone(working.relations, at);
      while rest != {}
        invariant rest <= keys && committed == old(committed) && ok
        invariant working == old(working).(relations := DeleteAll(old(working).relations, keys - rest, at))
        decreases rest
      {
        var key :| key in rest;
        DeleteAllStep(old(working).relations, keys - rest, key, at);
        assert keys - rest + {key} == keys - (rest - {key});
        rest := rest - {key};
        ok := DeleteRelation(key, at, false);
        if !ok { return; }
      }
      assert keys - rest == keys;
    }

    /** Invalidates every live relation to a removed symbol, one removed symbol after another. */
    method DeleteRelationsTo(removed: set<SymbolId>, already: set<RelationKey>, at: string)
      returns (ok: bool, count: nat)
      requires already !! working.relations.live.Keys
      modifies this
      ensures committed == old(committed)
      ensures ok ==>
        var stale := Pointing(Contents(old(working).relations), removed);
        working == old(working).(relations := DeleteAll(old(working).relations, stale, at)) && count == |stale|
    {
      hide DeleteAll, Pointing, Contents;
      ok, count := true, 0;
      ghost var start := working.relations;
      ghost var done: set<RelationKey> := {};
      var rest := removed;
      DeleteNone(start, at);
      assert done == Pointing(Contents(start), removed - rest) by { PointingNone(start, removed - rest); }
      while rest != {}
        invariant rest <= removed && committed == old(committed) && ok
        invariant done == Pointing(Contents(start), removed - rest)
        invariant working == old(working).(relations := DeleteAll(start, done, at))
        invariant count == |done|
        decreases rest
      {
        var id :| id in rest;
        var toThis := set k | k in working.relations.live && k.target == id && k !in already;
        ghost var gone := removed - rest;
        PointingStep(start, already, gone, id, at);
        rest := rest - {id};
        ok := DeleteRelations(toThis, at);
        if !ok { return; }
        count := count + |toThis|;
        DeleteTwice(start, done, toThis, at);
        done := done + toThis;
        assert removed - rest == gone + {id};
      }
      assert removed - rest == removed;
    }
  }

  lemma PointingNone(t: RelationTable, none: set<SymbolId>)
    requires none == {}
    ensures Pointing(Contents(t), none) == {}
  {
  }

  /** The next removed symbol's relations are still live, and are none of those already deleted. */
  lemma PointingStep(t: RelationTable, already: set<RelationKey>, ids: set<SymbolId>, id: SymbolId, at: string)
    requires already !! t.live.Keys && id !in ids
    ensures var done := Pointing(Contents(t), ids);
      var now := set k | k in DeleteAll(t, done, at).live && k.target == id && k !in already;
      done !! now && Pointing(Contents(t), ids + {id}) == done + now
  {
    hide Rows;
    var done := Pointing(Contents(t), ids);
    assert DeleteAll(t, done, at).live == t.live - done;
  }

  lemma RowsAfterDelete<K, C>(t: Table<K, C>, keys: set<K>, at: string, k: K)
    ensures Rows(DeleteAll(t, keys, at), k) == Rows(t, k) + (if k in keys then [Tombstone(at)] else [])
  {
  }

  lemma LiveAfterDelete<K, C>(t: Table<K, C>, keys: set<K>, at: string)
    ensures DeleteAll(t, keys, at).live == t.live - keys
    ensures DeleteAll(t, keys, at).history.Keys == t.history.Keys + keys
  {
  }

  lemma RowsTwice<K, C>(t: Table<K, C>, a: set<K>, b: set<K>, at: string, k: K)
    requires a !! b
    ensures Rows(DeleteAll(DeleteAll(t, a, at), b, at), k) == Rows(DeleteAll(t, a + b, at), k)
  {
    hide DeleteAll;
    RowsAfterDelete(t, a, at, k);
    RowsAfterDelete(DeleteAll(t, a, at), b, at, k);
    RowsAfterDelete(t, a + b, at, k);
  }

  lemma SameRows<K(!new), C>(x: Table<K, C>, y: Table<K, C>)
    requires x.live == y.live && x.history.Keys == y.history.Keys
    requires forall k :: Rows(x, k) == Rows(y, k)
    ensures x == y
  {
    forall k | k in x.history ensures x.history[k] == y.history[k] {
      assert Rows(x, k) == Rows(y, k);
    }
  }

  lemma LessTwice<K, V>(m: map<K, V>, a: set<K>, b: set<K>)
    ensures m - a - b == m - (a + b)
  {
  }

  lemma LessTwiceKeys<K>(m: set<K>, a: set<K>, b: set<K>)
    ensures m + a + b == m + (a + b)
  {
  }

  lemma DeleteTwice<K(!new), C>(t: Table<K, C>, a: set<K>, b: set<K>, at: string)
    requires a !! b
    ensures DeleteAll(DeleteAll(t, a, at), b, at) == DeleteAll(t, a + b, at)
  {
    hide DeleteAll, Rows;
    LiveAfterDelete(t, a, at);
    LiveAfterDelete(DeleteAll(t, a, at), b, at);
    LiveAfterDelete(t, a + b, at);
    LessTwice(t.live, a, b);
    LessTwiceKeys(t.history.Keys, a, b);
    forall k ensures Rows(DeleteAll(DeleteAll(t, a, at), b, at), k) == Rows(DeleteAll(t, a + b, at), k) {
      RowsTwice(t, a, b, at, k);
    }
    SameRows(DeleteAll(DeleteAll(t, a, at), b, at), DeleteAll(t, a + b, at));
  }
}
