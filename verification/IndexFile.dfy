/**
 `index_file` on one shared connection: everything it writes is one transaction, and what a
 successful call commits is the reconciliation that `Indexer` specifies.
 */
module IndexFile {
  import opened Wrappers
  import opened Facts
  import opened FactTable
  import opened Indexer
  import opened Connections

  datatype IndexResult = IndexResult(
    skipped: bool,
    symbolsUpserted: nat,
    symbolsTombstoned: nat,
    relationsUpserted: nat,
    relationsTombstoned: nat)

  // ----- resolving deferred references, one relation per candidate -----

  type RelationClaim = Claim<RelationKey, RelationContent>

  /** How many symbols a deferred reference may mean. */
  function CandidateCount(syms: Symbols, d: Deferred): nat {
    match d
    case Call(_, modulePath, name, None) => |Candidates(syms, name, "function", modulePath)|
    case Call(_, modulePath, name, Some(attribute)) =>
      |Candidates(syms, attribute, "function", modulePath + "." + name)|
    case Inherit(_, modulePath, name) => |Candidates(syms, name, "class", modulePath)|
    case Override(_, modulePath, baseName, methodName) => |BaseMethods(syms, modulePath, baseName, methodName)|
    case SelfCall(_, Some((modulePath, baseName)), methodName) => |BaseMethods(syms, modulePath, baseName, methodName)|
    case SelfCall(_, None, _) => 0
  }

  function TotalCandidates(syms: Symbols, items: seq<Deferred>): nat {
    if items == [] then 0
    else TotalCandidates(syms, items[..|items| - 1]) + CandidateCount(syms, items[|items| - 1])
  }

  function Certainty(count: nat): Confidence {
    if count == 1 then EXTRACTED else AMBIGUOUS
  }

  lemma ClaimMapPush<K, C>(claims: seq<Claim<K, C>>, c: Claim<K, C>)
    ensures ClaimMap(claims + [c]) == ClaimMap(claims)[c.key := c.content]
  {
    assert (claims + [c])[..|claims|] == claims;
  }

  lemma {:induction false} ClaimMapAppend<K, C>(a: seq<Claim<K, C>>, b: seq<Claim<K, C>>)
    ensures ClaimMap(a + b) == ClaimMap(a) + ClaimMap(b)
  {
    if b == [] {
      assert a + b == a;
    } else {
      var rest, last := b[..|b| - 1], b[|b| - 1];
      assert a + b == (a + rest) + [last];
      ClaimMapAppend(a, rest);
      ClaimMapPush(a + rest, last);
    }
  }

  lemma EmitNext(o: Origin, predicate_: string, done: set<SymbolId>, t: SymbolId, count: nat)
    ensures Emit(o, predicate_, done + {t}, count) ==
            Emit(o, predicate_, done, count)[
              KeyAt(o, t, predicate_) := RelationContent(Certainty(count), o.provider, o.version)]
  {
  }

  /** The claim is what the map says of its key. */
  ghost predicate Held<K, C>(m: map<K, C>, c: Claim<K, C>) {
    c.key in m && m[c.key] == c.content
  }

  lemma EmitHolds(o: Origin, predicate_: string, targets: set<SymbolId>, t: SymbolId, count: nat)
    requires t in targets
    ensures Held(Emit(o, predicate_, targets, count),
                 Claim(KeyAt(o, t, predicate_), RelationContent(Certainty(count), o.provider, o.version)))
  {
  }

  lemma EmitNone(o: Origin, predicate_: string, none: set<SymbolId>, count: nat)
    requires none == {}
    ensures Emit(o, predicate_, none, count) == map[]
  {
  }

  method EmitSymbols(o: Origin, predicate_: string, found: set<SymbolId>) returns (claims: seq<RelationClaim>)
    ensures ClaimMap(claims) == Emit(o, predicate_, found, |found|)
    ensures forall c :: c in claims ==> Held(Emit(o, predicate_, found, |found|), c)
    ensures |claims| == |found|
  {
    hide Emit, ClaimMap, KeyAt, Held;
    claims := [];
    NoClaims();
    var rest := found;
    ghost var done: set<SymbolId> := {};
    EmitNone(o, predicate_, done, |found|);
    while rest != {}
      invariant found == done + rest && done !! rest
      invariant ClaimMap(claims) == Emit(o, predicate_, done, |found|)
      invariant forall c :: c in claims ==> Held(Emit(o, predicate_, found, |found|), c)
      invariant |claims| == |done|
      decreases rest
    {
      var t :| t in rest;
      var c := Claim(KeyAt(o, t, predicate_), RelationContent(Certainty(|found|), o.provider, o.version));
      ClaimMapPush(claims, c);
      EmitNext(o, predicate_, done, t, |found|);
      EmitHolds(o, predicate_, found, t, |found|);
      claims, rest, done := claims + [c], rest - {t}, done + {t};
    }
    assert done == found;
  }

  method EmitMethods(o: Origin, predicate_: string, found: set<(SymbolId, SymbolId)>)
    returns (claims: seq<RelationClaim>)
    ensures ClaimMap(claims) == Emit(o, predicate_, Targets(found), |found|)
    ensures forall c :: c in claims ==> Held(Emit(o, predicate_, Targets(found), |found|), c)
    ensures |claims| == |found|
  {
    hide Emit, ClaimMap, KeyAt, Held;
    claims := [];
    NoClaims();
    var rest := found;
    ghost var done: set<(SymbolId, SymbolId)> := {};
    EmitNone(o, predicate_, Targets(done), |found|);
    while rest != {}
      invariant found == done + rest && done !! rest
      invariant ClaimMap(claims) == Emit(o, predicate_, Targets(done), |found|)
      invariant forall c :: c in claims ==> Held(Emit(o, predicate_, Targets(found), |found|), c)
      invariant |claims| == |done|
      decreases rest
    {
      var p :| p in rest;
      var c := Claim(KeyAt(o, p.1, predicate_), RelationContent(Certainty(|found|), o.provider, o.version));
      ClaimMapPush(claims, c);
      assert Targets(done + {p}) == Targets(done) + {p.1};
      EmitNext(o, predicate_, Targets(done), p.1, |found|);
      assert p.1 in Targets(found);
      EmitHolds(o, predicate_, Targets(found), p.1, |found|);
      claims, rest, done := claims + [c], rest - {p}, done + {p};
    }
    assert done == found;
  }

  method ResolveOne(syms: Symbols, d: Deferred) returns (claims: seq<RelationClaim>)
    ensures ClaimMap(claims) == Resolve(syms, d)
    ensures forall c :: c in claims ==> Held(Resolve(syms, d), c)
    ensures |claims| == CandidateCount(syms, d)
  {
    hide Candidates, BaseMethods, Emit, Targets, ClaimMap, Held;
    match d
    case Call(o, modulePath, name, None) =>
      claims := EmitSymbols(o, "calls", Candidates(syms, name, "function", modulePath));
    case Call(o, modulePath, name, Some(attribute)) =>
      claims := EmitSymbols(o, "calls", Candidates(syms, attribute, "function", modulePath + "." + name));
    case Inherit(o, modulePath, name) =>
      claims := EmitSymbols(o, "inherits", Candidates(syms, name, "class", modulePath));
    case Override(o, modulePath, baseName, methodName) =>
      claims := EmitMethods(o, "overrides", BaseMethods(syms, modulePath, baseName, methodName));
    case SelfCall(o, Some((modulePath, baseName)), methodName) =>
      claims := EmitMethods(o, "calls", BaseMethods(syms, modulePath, baseName, methodName));
    case SelfCall(_, None, _) =>
      claims := [];
      assert ClaimMap<RelationKey, RelationContent>([]) == map[] by { NoClaims(); }
  }

  lemma NoClaims()
    ensures ClaimMap<RelationKey, RelationContent>([]) == map[]
  {
  }

  /** Some item resolves to this claim. */
  ghost predicate Resolved(syms: Symbols, items: seq<Deferred>, c: RelationClaim) {
    exists d :: d in items && Held(Resolve(syms, d), c)
  }

  method ResolveDeferred(syms: Symbols, items: seq<Deferred>) returns (claims: seq<RelationClaim>)
    ensures ClaimMap(claims) == ResolveAll(syms, items)
    ensures forall c :: c in claims ==> Resolved(syms, items, c)
    ensures |claims| == TotalCandidates(syms, items)
  {
    hide ClaimMap, Resolve, CandidateCount, Held;
    claims := [];
    NoClaims();
    for i := 0 to |items|
      invariant ClaimMap(claims) == ResolveAll(syms, items[..i])
      invariant forall c :: c in claims ==> Resolved(syms, items, c)
      invariant |claims| == TotalCandidates(syms, items[..i])
    {
      assert items[..i + 1][..i] == items[..i];
      var found := ResolveOne(syms, items[i]);
      assert items[i] in items;
      ClaimMapAppend(claims, found);
      claims := claims + found;
    }
    assert items[..|items|] == items;
  }

  // ----- index_file -----

  /** The relations a call writes, in order: those extracted, and one for every candidate of a deferred reference. */
  ghost predicate Writes(ex: Extraction, syms: Symbols, written: seq<RelationClaim>) {
    && ClaimMap(written) == NewRelations(ex, syms)
    && forall c :: c in written ==> c in ex.relations || Resolved(syms, Items(ex), c)
  }

  /** The database one successful call leaves, given the relations it wrote in order. */
  function Reconcile(db: Database, path: string, ex: Extraction, at: string, pruneInferred: bool,
                     written: seq<RelationClaim>): Database {
    var removed := RemovedSymbols(Live(db), path, ex);
    var stale := Pointing(Diffed(Live(db), path, ex, pruneInferred), removed);
    Database(
      DeleteAll(UpsertAll(db.symbols, Stamp(ex.symbols, at)), removed, at),
      DeleteAll(UpsertAll(db.relations, Stamp(written, at)),
                Unsupported(Live(db), path, ex, pruneInferred) + stale, at),
      db.generation + 1)
  }

  function KeysOf<K(==), C(==)>(claims: seq<Claim<K, C>>): set<K> {
    set c | c in claims :: c.key
  }

  lemma KeysAreClaimed<K, C>(claims: seq<Claim<K, C>>)
    ensures KeysOf(claims) == ClaimMap(claims).Keys
  {
    forall k ensures k in KeysOf(claims) <==> k in ClaimMap(claims) { ClaimMapKeys(claims, k); }
  }

  lemma {:induction false} ContentsUpserted<K, C>(t: Table<K, C>, claims: seq<Claim<K, C>>, at: string)
    ensures Contents(UpsertAll(t, Stamp(claims, at))) == Contents(t) + ClaimMap(claims)
  {
    hide Contents, Upsert;
    if claims == [] {
      assert Stamp(claims, at) == [];
    } else {
      var rest, last := claims[..|claims| - 1], Stamp(claims, at)[|claims| - 1];
      ContentsUpserted(t, rest, at);
      assert Stamp(claims, at)[..|claims| - 1] == Stamp(rest, at);
      ContentsUpsert(UpsertAll(t, Stamp(rest, at)), last);
    }
  }

  /** The committed index after a successful call is the specified reconciliation. */
  lemma ReconcileMeans(db: Database, path: string, ex: Extraction, at: string, pruneInferred: bool,
                       written: seq<RelationClaim>)
    requires ClaimMap(written) == NewRelations(ex, Live(db).symbols)
    ensures Live(Reconcile(db, path, ex, at, pruneInferred, written)) == IndexOne(Live(db), path, ex, pruneInferred)
  {
    hide Contents, UpsertAll, DeleteAll, RemovedSymbols, Unsupported, Pointing, NewRelations, Stamp;
    var removed := RemovedSymbols(Live(db), path, ex);
    var unsupported := Unsupported(Live(db), path, ex, pruneInferred);
    var stale := Pointing(Diffed(Live(db), path, ex, pruneInferred), removed);
    ContentsUpserted(db.symbols, ex.symbols, at);
    ContentsUpserted(db.relations, written, at);
    ContentsDeleted(UpsertAll(db.symbols, Stamp(ex.symbols, at)), removed, at);
    ContentsDeleted(UpsertAll(db.relations, Stamp(written, at)), unsupported + stale, at);
    LessTwice(Contents(db.relations) + ClaimMap(written), unsupported, stale);
  }

  /**
   One call. A failing write leaves the committed database untouched; otherwise symbols,
   relations, history and one generation bump are committed together.
   */
  method IndexFile(conn: Connection, path: string, extraction: Option<Extraction>, at: string, pruneInferred: bool)
    returns (r: Result<IndexResult, Error>, ghost written: seq<RelationClaim>)
    requires conn.working == conn.committed
    modifies conn
    ensures conn.working == conn.committed
    ensures extraction.None? ==>
              r == Success(IndexResult(true, 0, 0, 0, 0)) && conn.committed == old(conn.committed)
    ensures r == Failure(WriteFailed) ==> conn.committed == old(conn.committed)
    ensures extraction.Some? && r != Failure(WriteFailed) ==>
              && Writes(extraction.value, Live(old(conn.committed)).symbols, written)
              && conn.committed == Reconcile(old(conn.committed), path, extraction.value, at, pruneInferred, written)
              && Live(conn.committed) == IndexOne(Live(old(conn.committed)), path, extraction.value, pruneInferred)
    ensures extraction.Some? && r.Success? ==>
              r.value == IndexResult(
                false,
                |extraction.value.symbols|,
                |RemovedSymbols(Live(old(conn.committed)), path, extraction.value)|,
                |extraction.value.relations|
                + TotalCandidates(Live(old(conn.committed)).symbols, Items(extraction.value)),
                Tombstoned(Live(old(conn.committed)), path, extraction.value, pruneInferred))
  {
    hide Live, Reconcile, RemovedSymbols, Tombstoned, TotalCandidates, Items, NewRelations, IndexOne, ClaimMap;
    written := [];
    if extraction.None? { return Success(IndexResult(true, 0, 0, 0, 0)), written; }
    var ex := extraction.value;
    var result, wrote := Reconciling(conn, path, ex, at, pruneInferred);
    r, written := result, wrote;
    if r == Failure(WriteFailed) { conn.Rollback(); }
    else { ReconcileMeans(old(conn.committed), path, ex, at, pruneInferred, written); }
  }

  /** Everything one call reads: the relations to write, and the two diffs against what is live. */
  method Plan(db: Database, path: string, ex: Extraction, pruneInferred: bool)
    returns (relations: seq<RelationClaim>, removed: set<SymbolId>, unsupported: set<RelationKey>)
    ensures Writes(ex, Live(db).symbols, relations)
    ensures |relations| == |ex.relations| + TotalCandidates(Live(db).symbols, Items(ex))
    ensures removed == RemovedSymbols(Live(db), path, ex)
    ensures unsupported == Unsupported(Live(db), path, ex, pruneInferred)
  {
    hide Live, Contents, ClaimMap, ResolveAll, Items, TotalCandidates, RemovedSymbols, Unsupported, KeysOf, Resolved;
    LiveParts(db);
    var resolved := ResolveDeferred(Contents(db.symbols), Items(ex));
    relations := ex.relations + resolved;
    ClaimMapAppend(ex.relations, resolved);
    var priorSymbols := set id | id in db.symbols.live && db.symbols.live[id].content.path == path;
    var priorRelations := set k | k in db.relations.live && k.siteFile == path
                                  && (pruneInferred || db.relations.live[k].content.confidence != INFERRED);
    removed := priorSymbols - KeysOf(ex.symbols);
    unsupported := priorRelations - KeysOf(relations);
    KeysAreClaimed(ex.symbols);
    KeysAreClaimed(relations);
    PriorKeys(db, path, ex, pruneInferred, priorSymbols, priorRelations);
  }

  method Reconciling(conn: Connection, path: string, ex: Extraction, at: string, pruneInferred: bool)
    returns (r: Result<IndexResult, Error>, ghost written: seq<RelationClaim>)
    requires conn.working == conn.committed
    modifies conn
    ensures r == Failure(WriteFailed) ==> conn.committed == old(conn.committed)
    ensures r != Failure(WriteFailed) ==>
              && conn.working == conn.committed
              && Writes(ex, Live(old(conn.committed)).symbols, written)
              && conn.committed == Reconcile(old(conn.committed), path, ex, at, pruneInferred, written)
    ensures r.Success? ==>
              r.value == IndexResult(
                false,
                |ex.symbols|,
                |RemovedSymbols(Live(old(conn.committed)), path, ex)|,
                |ex.relations| + TotalCandidates(Live(old(conn.committed)).symbols, Items(ex)),
                Tombstoned(Live(old(conn.committed)), path, ex, pruneInferred))
  {
    hide Live, Contents, UpsertAll, DeleteAll, Stamp, ClaimMap, Pointing, ResolveAll, Items, TotalCandidates,
      RemovedSymbols, Unsupported, Reconcile, Tombstoned, KeysOf, NewRelations;
    ghost var db := conn.working;
    var relations, removed, unsupported := Plan(conn.working, path, ex, pruneInferred);
    written := relations;
    var ok, count := WriteFacts(conn, Stamp(ex.symbols, at), Stamp(relations, at), removed, unsupported, at);
    if !ok { return Failure(WriteFailed), written; }
    var error := conn.BumpGeneration();
    if error == Some(WriteFailed) { return Failure(WriteFailed), written; }
    Assembled(db, path, ex, at, pruneInferred, relations, removed, unsupported);
    if error.Some? { return Failure(error.value), written; }
    return Success(IndexResult(false, |ex.symbols|, |removed|, |relations|, |unsupported| + count)), written;
  }

  lemma LiveParts(db: Database)
    ensures Live(db) == Index(Contents(db.symbols), Contents(db.relations))
  {
  }

  /** The writes of one call, in order; none of them commits. */
  method WriteFacts(conn: Connection, symbols: seq<Symbol>, relations: seq<Relation>,
                    removed: set<SymbolId>, unsupported: set<RelationKey>, at: string)
    returns (ok: bool, count: nat)
    modifies conn
    ensures conn.committed == old(conn.committed)
    ensures ok ==>
      var diffed := DeleteAll(UpsertAll(old(conn.working).relations, relations), unsupported, at);
      var stale := Pointing(Contents(diffed), removed);
      conn.working == Database(
        DeleteAll(UpsertAll(old(conn.working).symbols, symbols), removed, at),
        DeleteAll(diffed, stale, at),
        old(conn.working).generation)
      && count == |stale|
  {
    hide Contents, UpsertAll, DeleteAll, Pointing;
    count := 0;
    ok := conn.UpsertSymbols(symbols);
    if !ok { return; }
    ok := conn.UpsertRelations(relations);
    if !ok { return; }
    ok := conn.DeleteSymbols(removed, at);
    if !ok { return; }
    LiveAfterDelete(conn.working.relations, unsupported, at);
    ok := conn.DeleteRelations(unsupported, at);
    if !ok { return; }
    ok, count := conn.DeleteRelationsTo(removed, unsupported, at);
  }

  lemma Assembled(db: Database, path: string, ex: Extraction, at: string, pruneInferred: bool,
                  written: seq<RelationClaim>, removed: set<SymbolId>, unsupported: set<RelationKey>)
    requires ClaimMap(written) == NewRelations(ex, Live(db).symbols)
    requires removed == RemovedSymbols(Live(db), path, ex)
    requires unsupported == Unsupported(Live(db), path, ex, pruneInferred)
    ensures var diffed := DeleteAll(UpsertAll(db.relations, Stamp(written, at)), unsupported, at);
      var stale := Pointing(Contents(diffed), removed);
      && Reconcile(db, path, ex, at, pruneInferred, written) == Database(
           DeleteAll(UpsertAll(db.symbols, Stamp(ex.symbols, at)), removed, at),
           DeleteAll(diffed, stale, at),
           db.generation + 1)
      && Tombstoned(Live(db), path, ex, pruneInferred) == |unsupported| + |stale|
  {
    hide Contents, UpsertAll, DeleteAll, RemovedSymbols, Unsupported, Pointing, NewRelations, Stamp, ClaimMap;
    var upserted := UpsertAll(db.relations, Stamp(written, at));
    var diffed := DeleteAll(upserted, unsupported, at);
    ContentsUpserted(db.relations, written, at);
    ContentsDeleted(upserted, unsupported, at);
    LiveAfterDelete(upserted, unsupported, at);
    StaleIsLive(diffed, unsupported, removed);
    DeleteTwice(upserted, unsupported, Pointing(Contents(diffed), removed), at);
  }

  lemma PriorKeys(db: Database, path: string, ex: Extraction, pruneInferred: bool, symbols: set<SymbolId>,
                  relations: set<RelationKey>)
    requires symbols == set id | id in db.symbols.live && db.symbols.live[id].content.path == path
    requires relations == set k | k in db.relations.live && k.siteFile == path
                                  && (pruneInferred || db.relations.live[k].content.confidence != INFERRED)
    ensures RemovedSymbols(Live(db), path, ex) == symbols - ClaimMap(ex.symbols).Keys
    ensures Unsupported(Live(db), path, ex, pruneInferred) == relations - NewRelations(ex, Live(db).symbols).Keys
  {
    hide ClaimMap, NewRelations;
    var live := Live(db);
    assert symbols == set id | id in live.symbols && live.symbols[id].path == path;
    assert relations == set k | k in live.relations && k.siteFile == path
                               && (pruneInferred || live.relations[k].confidence != INFERRED);
  }

  lemma StaleIsLive(t: RelationTable, gone: set<RelationKey>, removed: set<SymbolId>)
    requires t.live.Keys !! gone
    ensures Pointing(Contents(t), removed) !! gone
  {
  }

  /** Everything one call deletes is live when it is deleted, so live tables and histories go on agreeing. */
  lemma ReconcileAgrees(db: Database, path: string, ex: Extraction, at: string, pruneInferred: bool,
                        written: seq<RelationClaim>, id: SymbolId, k: RelationKey)
    requires ClaimMap(written) == NewRelations(ex, Live(db).symbols)
    requires Agrees(db.symbols, id) && Agrees(db.relations, k)
    ensures var after := Reconcile(db, path, ex, at, pruneInferred, written);
      Agrees(after.symbols, id) && Agrees(after.relations, k)
  {
    hide Agrees, UpsertAll, DeleteAll, NewRelations, ClaimMap, Stamp;
    var symbols, relations := UpsertAll(db.symbols, Stamp(ex.symbols, at)), UpsertAll(db.relations, Stamp(written, at));
    ContentsUpserted(db.symbols, ex.symbols, at);
    ContentsUpserted(db.relations, written, at);
    assert Contents(symbols).Keys == symbols.live.Keys && Contents(relations).Keys == relations.live.Keys;
    UpsertAllAgrees(db.symbols, Stamp(ex.symbols, at), id);
    UpsertAllAgrees(db.relations, Stamp(written, at), k);
    var removed := RemovedSymbols(Live(db), path, ex);
    var gone := Unsupported(Live(db), path, ex, pruneInferred)
                + Pointing(Diffed(Live(db), path, ex, pruneInferred), removed);
    assert removed <= symbols.live.Keys;
    assert gone <= relations.live.Keys;
    DeleteAllAgrees(symbols, removed, at, id);
    DeleteAllAgrees(relations, gone, at, k);
  }

  // ----- times of observation -----

  /** The facts claimed, each as last claimed, observed at one time. */
  ghost function ObservedAt<K(!new), C>(claims: seq<Claim<K, C>>, at: string): map<K, Fact<K, C>> {
    map k | k in ClaimMap(claims) :: Fact(k, ClaimMap(claims)[k], at)
  }

  lemma {:induction false} StampedLast<K(!new), C>(claims: seq<Claim<K, C>>, at: string)
    ensures LastWrites(Stamp(claims, at)) == ObservedAt(claims, at)
  {
    if claims == [] {
      assert Stamp(claims, at) == [];
    } else {
      var before := claims[..|claims| - 1];
      StampedLast(before, at);
      assert Stamp(claims, at)[..|claims| - 1] == Stamp(before, at);
    }
  }

  /** What a call writes is observed at its time, observed again or not; all other rows keep theirs. */
  lemma ReconcileStamps(db: Database, path: string, ex: Extraction, at: string, pruneInferred: bool,
                        written: seq<RelationClaim>)
    ensures var after := Reconcile(db, path, ex, at, pruneInferred, written);
      && (forall id :: id in after.symbols.live ==>
            if id in ClaimMap(ex.symbols) then after.symbols.live[id] == Fact(id, ClaimMap(ex.symbols)[id], at)
            else id in db.symbols.live && after.symbols.live[id] == db.symbols.live[id])
      && (forall k :: k in after.relations.live ==>
            if k in ClaimMap(written) then after.relations.live[k] == Fact(k, ClaimMap(written)[k], at)
            else k in db.relations.live && after.relations.live[k] == db.relations.live[k])
  {
    UpsertAllLive(db.symbols, Stamp(ex.symbols, at));
    UpsertAllLive(db.relations, Stamp(written, at));
    StampedLast(ex.symbols, at);
    StampedLast(written, at);
    var removed := RemovedSymbols(Live(db), path, ex);
    var gone := Unsupported(Live(db), path, ex, pruneInferred)
                + Pointing(Diffed(Live(db), path, ex, pruneInferred), removed);
    LiveAfterDelete(UpsertAll(db.symbols, Stamp(ex.symbols, at)), removed, at);
    LiveAfterDelete(UpsertAll(db.relations, Stamp(written, at)), gone, at);
    hide UpsertAll, DeleteAll, Stamp, LastWrites, ClaimMap, RemovedSymbols, Unsupported, Pointing, Diffed, Live;
  }
}
