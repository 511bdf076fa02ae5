/**
 A fact store: a live table and, per key, the history of what was observed. Symbols and
 relations are stored the same way; what differs between two observations of one key is the
 content, everything but `observedAt`.
 */
module FactTable {
  import opened Wrappers

  datatype Fact<K, C> = Fact(key: K, content: C, observedAt: string)

  datatype Row<K, C> = Observed(fact: Fact<K, C>) | Tombstone(at: string)

  datatype Table<K(==), C(==)> = Table(live: map<K, Fact<K, C>>, history: map<K, seq<Row<K, C>>>)

  function Rows<K, C>(t: Table<K, C>, key: K): seq<Row<K, C>> {
    if key in t.history then t.history[key] else []
  }

  function ContentDiffers<K, C(==)>(t: Table<K, C>, fact: Fact<K, C>): bool {
    fact.key !in t.live || t.live[fact.key].content != fact.content
  }

  /** `upsert`: the live row always changes, the history grows only when the content does. */
  function Upsert<K, C(==)>(t: Table<K, C>, fact: Fact<K, C>): Table<K, C> {
    Table(t.live[fact.key := fact],
          if ContentDiffers(t, fact) then t.history[fact.key := Rows(t, fact.key) + [Observed(fact)]] else t.history)
  }

  /** `delete`: the live row goes, the history gains a tombstone. */
  function Delete<K, C>(t: Table<K, C>, key: K, at: string): Table<K, C> {
    Table(t.live - {key}, t.history[key := Rows(t, key) + [Tombstone(at)]])
  }

  function UpsertAll<K, C(==)>(t: Table<K, C>, facts: seq<Fact<K, C>>): Table<K, C> {
    if facts == [] then t else Upsert(UpsertAll(t, facts[..|facts| - 1]), facts[|facts| - 1])
  }

  function DeleteAll<K, C>(t: Table<K, C>, keys: set<K>, at: string): Table<K, C> {
    Table(t.live - keys,
          map k | k in t.history.Keys + keys :: Rows(t, k) + (if k in keys then [Tombstone(at)] else []))
  }

  /** What remains of a list of facts: the last one written per key. */
  function LastWrites<K, C>(facts: seq<Fact<K, C>>): map<K, Fact<K, C>> {
    if facts == [] then map[]
    else LastWrites(facts[..|facts| - 1])[facts[|facts| - 1].key := facts[|facts| - 1]]
  }

  lemma {:induction false} UpsertAllLive<K, C>(t: Table<K, C>, facts: seq<Fact<K, C>>)
    ensures UpsertAll(t, facts).live == t.live + LastWrites(facts)
  {
    if facts != [] { UpsertAllLive(t, facts[..|facts| - 1]); }
  }

  /** Deleting one key after another, in any order, is deleting them all. */
  lemma DeleteAllStep<K, C>(t: Table<K, C>, keys: set<K>, key: K, at: string)
    requires key !in keys
    ensures Delete(DeleteAll(t, keys, at), key, at) == DeleteAll(t, keys + {key}, at)
  {
    var a, b := Delete(DeleteAll(t, keys, at), key, at), DeleteAll(t, keys + {key}, at);
    assert a.live == b.live;
    assert a.history.Keys == b.history.Keys;
    forall k | k in a.history ensures a.history[k] == b.history[k] { }
  }

  lemma DeleteNone<K, C>(t: Table<K, C>, at: string)
    ensures DeleteAll(t, {}, at) == t
  {
    var a := DeleteAll(t, {}, at);
    assert a.history.Keys == t.history.Keys;
    forall k | k in a.history ensures a.history[k] == t.history[k] { }
  }

  /** The live rows without their times of observation. */
  function Contents<K, C>(t: Table<K, C>): map<K, C> {
    map k | k in t.live :: t.live[k].content
  }

  lemma ContentsUpsert<K, C>(t: Table<K, C>, fact: Fact<K, C>)
    ensures Contents(Upsert(t, fact)) == Contents(t)[fact.key := fact.content]
  {
  }

  lemma ContentsDeleted<K, C>(t: Table<K, C>, keys: set<K>, at: string)
    ensures Contents(DeleteAll(t, keys, at)) == Contents(t) - keys
  {
  }

  // ----- live table and history agree -----

  /**
   A key's history: rows of that key, content rows next to each other different, and every
   tombstone right after a content row.
   */
  ghost predicate WellKept<K, C>(rows: seq<Row<K, C>>, key: K) {
    && (forall i {:trigger rows[i]} :: 0 <= i < |rows| && rows[i].Observed? ==> rows[i].fact.key == key)
    && (forall i, j {:trigger rows[i], rows[j]} ::
          0 <= i && j == i + 1 && j < |rows| && rows[i].Observed? && rows[j].Observed? ==>
          rows[i].fact.content != rows[j].fact.content)
    && (forall i {:trigger rows[i]} :: 0 <= i < |rows| && rows[i].Tombstone? ==> i > 0 && rows[i - 1].Observed?)
  }

  /** Live exactly when the last history row is no tombstone, with that row's content. */
  ghost predicate Agrees<K, C>(t: Table<K, C>, key: K) {
    var rows := Rows(t, key);
    && (key in t.live <==> rows != [] && rows[|rows| - 1].Observed?)
    && (key in t.live ==> t.live[key].key == key && t.live[key].content == rows[|rows| - 1].fact.content)
    && WellKept(rows, key)
  }

  /** The operations the daemon performs: any upsert, and deletes of live keys. */
  datatype Op<K, C> = Put(fact: Fact<K, C>) | Remove(key: K, at: string)

  predicate Possible<K, C>(t: Table<K, C>, op: Op<K, C>) {
    op.Remove? ==> op.key in t.live
  }

  function Perform<K, C(==)>(t: Table<K, C>, op: Op<K, C>): Table<K, C> {
    match op
    case Put(fact) => Upsert(t, fact)
    case Remove(key, at) => Delete(t, key, at)
  }

  lemma KeptObserved<K, C>(rows: seq<Row<K, C>>, fact: Fact<K, C>)
    requires WellKept(rows, fact.key)
    requires rows != [] && rows[|rows| - 1].Observed? ==> rows[|rows| - 1].fact.content != fact.content
    ensures WellKept(rows + [Observed(fact)], fact.key)
  {
  }

  lemma KeptTombstone<K, C>(rows: seq<Row<K, C>>, key: K, at: string)
    requires WellKept(rows, key) && rows != [] && rows[|rows| - 1].Observed?
    ensures WellKept(rows + [Tombstone(at)], key)
  {
  }

  lemma PerformAgrees<K, C>(t: Table<K, C>, op: Op<K, C>, key: K)
    requires Possible(t, op) && Agrees(t, key)
    ensures Agrees(Perform(t, op), key)
  {
    hide WellKept;
    match op
    case Put(fact) =>
      if fact.key == key && ContentDiffers(t, fact) { KeptObserved(Rows(t, key), fact); }
    case Remove(gone, at) =>
      if gone == key { KeptTombstone(Rows(t, key), key, at); }
  }

  /** The table a sequence of operations leaves, if each was possible when it was performed. */
  function After<K, C(==)>(ops: seq<Op<K, C>>): Option<Table<K, C>>
    decreases |ops|
  {
    if ops == [] then Some(Table(map[], map[]))
    else
      match After(ops[..|ops| - 1])
      case Some(t) => if Possible(t, ops[|ops| - 1]) then Some(Perform(t, ops[|ops| - 1])) else None
      case None => None
  }

  /** Over every sequence of upserts and deletes of live keys, live table and history agree on every key. */
  lemma {:induction false} HistoryAgrees<K, C>(ops: seq<Op<K, C>>, key: K)
    requires After(ops).Some?
    ensures Agrees(After(ops).value, key)
    decreases |ops|
  {
    if ops != [] {
      HistoryAgrees(ops[..|ops| - 1], key);
      PerformAgrees(After(ops[..|ops| - 1]).value, ops[|ops| - 1], key);
    }
  }

  lemma {:induction false} UpsertAllAgrees<K, C>(t: Table<K, C>, facts: seq<Fact<K, C>>, key: K)
    requires Agrees(t, key)
    ensures Agrees(UpsertAll(t, facts), key)
  {
    hide Agrees, Upsert;
    if facts != [] {
      UpsertAllAgrees(t, facts[..|facts| - 1], key);
      PerformAgrees(UpsertAll(t, facts[..|facts| - 1]), Put(facts[|facts| - 1]), key);
    }
  }

  lemma DeleteAllAgrees<K, C>(t: Table<K, C>, keys: set<K>, at: string, key: K)
    requires Agrees(t, key) && keys <= t.live.Keys
    ensures Agrees(DeleteAll(t, keys, at), key)
  {
    hide WellKept;
    if key in keys { KeptTombstone(Rows(t, key), key, at); }
    assert Rows(t, key) + [] == Rows(t, key);
    assert Rows(DeleteAll(t, keys, at), key) == if key in keys then Rows(t, key) + [Tombstone(at)] else Rows(t, key);
  }
}
