/** `explain`: everything ever observed of one symbol or relation, newest first, in pages. */
module Explain {
  import opened Wrappers
  import opened Ordering
  import opened Tuples
  import opened Facts
  import opened FactTable
  import opened Pagination

  /** The content rows of a key's history, oldest first; tombstones are no entries. */
  function ContentRows<K, C>(rows: seq<Row<K, C>>): seq<Fact<K, C>> {
    if rows == [] then []
    else
      var last := rows[|rows| - 1];
      ContentRows(rows[..|rows| - 1]) + (if last.Observed? then [last.fact] else [])
  }

  predicate IsTombstoned<K, C>(t: Table<K, C>, key: K) {
    var rows := Rows(t, key);
    rows != [] && rows[|rows| - 1].Tombstone?
  }

  datatype Entry<K, C> = Entry(fact: Fact<K, C>, deleted: bool)

  /** `EmptyHistory` is the uncaught index error of reading the last row of no rows. */
  datatype ExplainError = NeverObserved | EmptyHistory | LimitRefused

  method CollectEntries<K, C>(t: Table<K, C>, key: K) returns (r: Result<seq<Entry<K, C>>, ExplainError>)
    ensures r == Entries(t, key)
  {
    var history := ContentRows(Rows(t, key));
    if key !in t.live && history == [] && !IsTombstoned(t, key) { return Failure(NeverObserved); }
    var entries: seq<Entry<K, C>>;
    if key in t.live {
      entries := [Entry(t.live[key], false)];
      if history != [] { history := history[..|history| - 1]; }
    } else if history == [] {
      return Failure(EmptyHistory);
    } else {
      entries := [Entry(history[|history| - 1], true)];
      history := history[..|history| - 1];
    }
    var first := entries;
    for i := 0 to |history|
      invariant entries == first + Plain(history[..i])
    {
      assert Plain(history[..i + 1]) == Plain(history[..i]) + [Entry(history[i], false)];
      entries := entries + [Entry(history[i], false)];
    }
    assert history[..|history|] == history;
    return Success(entries);
  }

  function Plain<K, C>(facts: seq<Fact<K, C>>): (es: seq<Entry<K, C>>)
    ensures |es| == |facts| && forall i :: 0 <= i < |es| ==> es[i] == Entry(facts[i], false)
  {
    seq(|facts|, i requires 0 <= i < |facts| => Entry(facts[i], false))
  }

  function AllButLast<T>(s: seq<T>): seq<T> {
    if s == [] then [] else s[..|s| - 1]
  }

  /** The current fact, or the last one before the deletion, and then the rest of the history. */
  function Entries<K, C>(t: Table<K, C>, key: K): Result<seq<Entry<K, C>>, ExplainError> {
    var history := ContentRows(Rows(t, key));
    if key in t.live then Success([Entry(t.live[key], false)] + Plain(AllButLast(history)))
    else if history != [] then Success([Entry(history[|history| - 1], true)] + Plain(AllButLast(history)))
    else if IsTombstoned(t, key) then Failure(EmptyHistory)
    else Failure(NeverObserved)
  }

  // ----- one entry per content row, and never an empty history -----

  lemma {:induction false} ContentRowsLast<K, C>(rows: seq<Row<K, C>>, key: K)
    requires WellKept(rows, key) && rows != []
    ensures ContentRows(rows) != []
    ensures rows[|rows| - 1].Observed? ==> ContentRows(rows)[|ContentRows(rows)| - 1] == rows[|rows| - 1].fact
  {
    if rows[|rows| - 1].Tombstone? {
      var before := rows[..|rows| - 1];
      assert before[|before| - 1].Observed?;
      assert ContentRows(before) == ContentRows(before[..|before| - 1]) + [before[|before| - 1].fact];
    }
  }

  /** Where live table and history agree, every content row is one entry, and the index error cannot happen. */
  lemma EntriesOfHistory<K, C>(t: Table<K, C>, key: K)
    requires Agrees(t, key)
    ensures Rows(t, key) == [] <==> Entries(t, key) == Failure(NeverObserved)
    ensures Entries(t, key) != Failure(EmptyHistory)
    ensures Rows(t, key) != [] ==> Entries(t, key).Success?
    ensures Entries(t, key).Success? ==>
      var entries := Entries(t, key).value;
      && |entries| == |ContentRows(Rows(t, key))|
      && (entries[0].deleted <==> key !in t.live)
      && entries[0].fact.content == ContentRows(Rows(t, key))[|entries| - 1].content
      && (forall i :: 0 < i < |entries| ==> entries[i] == Entry(ContentRows(Rows(t, key))[i - 1], false))
  {
    if Rows(t, key) != [] { ContentRowsLast(Rows(t, key), key); }
  }

  /** After every sequence of upserts and deletes of live keys, `explain` finds what it looks for. */
  lemma ExplainNeverFails<K, C>(ops: seq<Op<K, C>>, key: K)
    requires After(ops).Some?
    ensures Entries(After(ops).value, key) != Failure(EmptyHistory)
  {
    HistoryAgrees(ops, key);
    EntriesOfHistory(After(ops).value, key);
  }

  // ----- deletes of keys that are not live -----

  /** The table any sequence of operations leaves, deletes of absent keys included. */
  function AfterAny<K, C(==)>(ops: seq<Op<K, C>>): Table<K, C> {
    if ops == [] then Table(map[], map[]) else Perform(AfterAny(ops[..|ops| - 1]), ops[|ops| - 1])
  }

  predicate Puts<K(==), C>(op: Op<K, C>, key: K) {
    op.Put? && op.fact.key == key
  }

  ghost predicate EverPut<K, C>(ops: seq<Op<K, C>>, key: K) {
    exists op :: op in ops && Puts(op, key)
  }

  ghost predicate EverRemoved<K, C>(ops: seq<Op<K, C>>, key: K) {
    exists op :: op in ops && op.Remove? && op.key == key
  }

  lemma {:induction false} HistoryRecords<K, C>(ops: seq<Op<K, C>>, key: K)
    ensures var t := AfterAny(ops);
      && (EverPut(ops, key) <==> ContentRows(Rows(t, key)) != [])
      && (Rows(t, key) != [] <==> EverPut(ops, key) || EverRemoved(ops, key))
      && (key in t.live ==> EverPut(ops, key))
      && (Rows(t, key) != [] && !EverPut(ops, key) ==> IsTombstoned(t, key))
  {
    if ops == [] {
      assert Rows(AfterAny(ops), key) == [];
    } else {
      var before, last := ops[..|ops| - 1], ops[|ops| - 1];
      HistoryRecords(before, key);
      EverSplit(ops, key);
      RowsStep(AfterAny(before), last, key);
    }
  }

  lemma EverSplit<K, C>(ops: seq<Op<K, C>>, key: K)
    requires ops != []
    ensures var before, last := ops[..|ops| - 1], ops[|ops| - 1];
      && (EverPut(ops, key) <==> EverPut(before, key) || (last.Put? && last.fact.key == key))
      && (EverRemoved(ops, key) <==> EverRemoved(before, key) || (last.Remove? && last.key == key))
  {
    var before, last := ops[..|ops| - 1], ops[|ops| - 1];
    assert ops == before + [last];
    if EverPut(before, key) { var op :| op in before && Puts(op, key); assert op in ops; }
    if EverRemoved(before, key) { var op :| op in before && op.Remove? && op.key == key; assert op in ops; }
    assert last in ops;
  }

  /** What one operation adds to a key's history. */
  lemma RowsStep<K, C>(t: Table<K, C>, op: Op<K, C>, key: K)
    ensures var rows, rows' := Rows(t, key), Rows(Perform(t, op), key);
      && (op.Put? && op.fact.key == key && ContentDiffers(t, op.fact) ==>
            rows' == rows + [Observed(op.fact)] && ContentRows(rows') == ContentRows(rows) + [op.fact])
      && (op.Remove? && op.key == key ==>
            rows' == rows + [Tombstone(op.at)] && ContentRows(rows') == ContentRows(rows))
      && (!(op.Put? && op.fact.key == key && ContentDiffers(t, op.fact)) && !(op.Remove? && op.key == key) ==>
            rows' == rows)
  {
    var rows := Rows(t, key);
    if op.Put? { assert (rows + [Observed(op.fact)])[..|rows|] == rows; }
    else {
      assert (rows + [Tombstone(op.at)])[..|rows|] == rows;
      assert ContentRows(rows) + [] == ContentRows(rows);
    }
  }

  /** The index error comes up exactly for a key that was deleted and never observed. */
  lemma ExplainFailsExactly<K, C>(ops: seq<Op<K, C>>, key: K)
    ensures Entries(AfterAny(ops), key) == Failure(EmptyHistory) <==> EverRemoved(ops, key) && !EverPut(ops, key)
  {
    HistoryRecords(ops, key);
  }

  /** For example after the delete of a key nobody ever observed. */
  lemma DeletedNeverObserved<K, C>(key: K, at: string)
    ensures var ops: seq<Op<K, C>> := [Remove(key, at)];
      Entries(AfterAny(ops), key) == Failure(EmptyHistory)
  {
    var ops: seq<Op<K, C>> := [Remove(key, at)];
    assert ops[0] in ops;
    ExplainFailsExactly(ops, key);
  }

  // ----- newest first -----

  /** Sort keys begin with the time of observation. */
  ghost predicate Timed<K(!new), C(!new)>(keyOf: Fact<K, C> -> Tuple) {
    forall f {:trigger keyOf(f)} :: keyOf(f) != [] && keyOf(f)[0] == Text(f.observedAt)
  }

  function NewestFirst<K, C>(keyOf: Fact<K, C> -> Tuple): (Entry<K, C>, Entry<K, C>) -> bool {
    (a: Entry<K, C>, b: Entry<K, C>) => TupleLe(keyOf(b.fact), keyOf(a.fact))
  }

  function EntryKey<K, C>(keyOf: Fact<K, C> -> Tuple): Entry<K, C> -> Tuple {
    (e: Entry<K, C>) => keyOf(e.fact)
  }

  /** Each observation later than the one before. */
  ghost predicate TimesAscend<K, C>(facts: seq<Fact<K, C>>) {
    forall i, j :: 0 <= i < j < |facts| ==> StrLess(facts[i].observedAt, facts[j].observedAt)
  }

  ghost predicate Chronological<K, C>(t: Table<K, C>, key: K) {
    var history := ContentRows(Rows(t, key));
    && TimesAscend(history)
    && (key in t.live && history != [] ==> StrLe(history[|history| - 1].observedAt, t.live[key].observedAt))
  }

  function Reverse<T>(s: seq<T>): seq<T> {
    if s == [] then [] else Reverse(s[1..]) + [s[0]]
  }

  lemma EarlierIsLess<K(!new), C(!new)>(keyOf: Fact<K, C> -> Tuple, a: Fact<K, C>, b: Fact<K, C>)
    requires Timed(keyOf) && StrLess(a.observedAt, b.observedAt)
    ensures TupleLess(keyOf(a), keyOf(b)) && !TupleLe(keyOf(b), keyOf(a))
  {
    StrLeTotal(a.observedAt, b.observedAt);
    assert keyOf(a)[0] != keyOf(b)[0];
    TupleLeTotal(keyOf(a), keyOf(b));
  }

  lemma {:induction false} InsertLast<T>(x: T, s: seq<T>, le: (T, T) -> bool)
    requires forall y :: y in s ==> !le(x, y)
    ensures Insert(x, s, le) == s + [x]
  {
    if s != [] {
      assert s[0] in s;
      InsertLast(x, s[1..], le);
      assert s == [s[0]] + s[1..];
    }
  }

  lemma {:induction false} ReverseMembers<T>(s: seq<T>)
    ensures |Reverse(s)| == |s| && forall i :: 0 <= i < |s| ==> Reverse(s)[i] == s[|s| - 1 - i]
  {
    if s != [] { ReverseMembers(s[1..]); }
  }

  /** Sorting an ascending history newest first reverses it. */
  lemma {:induction false} SortReverses<K(!new), C(!new)>(keyOf: Fact<K, C> -> Tuple, facts: seq<Fact<K, C>>)
    requires Timed(keyOf) && TimesAscend(facts)
    ensures Sort(Plain(facts), NewestFirst(keyOf)) == Reverse(Plain(facts))
  {
    if facts != [] {
      var rest := Plain(facts[1..]);
      SortReverses(keyOf, facts[1..]);
      assert Plain(facts)[1..] == rest;
      ReverseMembers(rest);
      forall y | y in Reverse(rest) ensures !NewestFirst(keyOf)(Entry(facts[0], false), y) {
        var i :| 0 <= i < |rest| && Reverse(rest)[i] == y;
        EarlierIsLess(keyOf, facts[0], facts[|rest| - i]);
      }
      InsertLast(Entry(facts[0], false), Reverse(rest), NewestFirst(keyOf));
    }
  }

  ghost predicate AllEarlier<K, C>(facts: seq<Fact<K, C>>, current: Fact<K, C>) {
    forall i :: 0 <= i < |facts| ==> StrLess(facts[i].observedAt, current.observedAt)
  }

  lemma SortPutsCurrentFirst<K(!new), C(!new)>(keyOf: Fact<K, C> -> Tuple, current: Entry<K, C>, facts: seq<Fact<K, C>>)
    requires Timed(keyOf) && TimesAscend(facts) && AllEarlier(facts, current.fact)
    ensures Sort([current] + Plain(facts), NewestFirst(keyOf)) == [current] + Reverse(Plain(facts))
  {
    var entries, older := [current] + Plain(facts), Reverse(Plain(facts));
    assert entries[1..] == Plain(facts);
    SortReverses(keyOf, facts);
    ReverseMembers(Plain(facts));
    if facts != [] {
      assert older[0].fact == facts[|facts| - 1];
      EarlierIsLess(keyOf, older[0].fact, current.fact);
    }
    assert Sort(entries, NewestFirst(keyOf)) == Insert(current, older, NewestFirst(keyOf));
  }

  lemma NewestFirstIsStrict<K(!new), C(!new)>(keyOf: Fact<K, C> -> Tuple, current: Entry<K, C>, facts: seq<Fact<K, C>>)
    requires Timed(keyOf) && TimesAscend(facts) && AllEarlier(facts, current.fact)
    ensures StrictlyOrdered([current] + Reverse(Plain(facts)), EntryKey(keyOf), true)
  {
    hide TupleLess, Timed;
    ReverseMembers(Plain(facts));
    var sorted := [current] + Reverse(Plain(facts));
    forall i, j | 0 <= i < j < |sorted| ensures Past(EntryKey(keyOf)(sorted[j]), EntryKey(keyOf)(sorted[i]), true) {
      assert sorted[j].fact == facts[|facts| - j];
      if i > 0 { assert sorted[i].fact == facts[|facts| - i]; }
      EarlierIsLess(keyOf, sorted[j].fact, sorted[i].fact);
    }
  }

  /**
   With strictly increasing timestamps the current fact comes first, the history newest first
   after it, and the keys are strictly descending, which is what paging through them needs.
   */
  lemma CurrentFactFirst<K(!new), C(!new)>(t: Table<K, C>, key: K, keyOf: Fact<K, C> -> Tuple)
    requires Timed(keyOf) && Agrees(t, key) && Chronological(t, key) && Entries(t, key).Success?
    ensures var entries := Entries(t, key).value;
      var sorted := Sort(entries, NewestFirst(keyOf));
      && sorted == [entries[0]] + Reverse(Plain(AllButLast(ContentRows(Rows(t, key)))))
      && StrictlyOrdered(sorted, EntryKey(keyOf), true)
  {
    hide Timed, StrictlyOrdered, Agrees, Sort;
    var entries, rest := Entries(t, key).value, AllButLast(ContentRows(Rows(t, key)));
    assert entries == [entries[0]] + Plain(rest);
    EntriesOfHistory(t, key);
    forall i | 0 <= i < |rest| ensures StrLess(rest[i].observedAt, entries[0].fact.observedAt) {
      CurrentIsNewest(t, key, i);
    }
    SortPutsCurrentFirst(keyOf, entries[0], rest);
    NewestFirstIsStrict(keyOf, entries[0], rest);
  }

  lemma NewestFirstIsPreorder<K(!new), C(!new)>(keyOf: Fact<K, C> -> Tuple)
    ensures TotalPreorder(NewestFirst(keyOf))
  {
    var le := NewestFirst(keyOf);
    forall a, b ensures le(a, b) || le(b, a) { TupleLeTotal(keyOf(a.fact), keyOf(b.fact)); }
    forall a, b, c | le(a, b) && le(b, c) ensures le(a, c) {
      TupleLeTransitive(keyOf(c.fact), keyOf(b.fact), keyOf(a.fact));
    }
  }

  /** No content row before the last has a greater sort key than the current fact. */
  ghost predicate NoneNewer<K(!new), C(!new)>(t: Table<K, C>, key: K, keyOf: Fact<K, C> -> Tuple)
    requires Entries(t, key).Success?
  {
    forall f :: f in AllButLast(ContentRows(Rows(t, key))) ==> TupleLe(keyOf(f), keyOf(Entries(t, key).value[0].fact))
  }

  /** Whatever the timestamps, the current fact comes first exactly if no earlier row sorts after it. */
  lemma CurrentFirstExactly<K(!new), C(!new)>(t: Table<K, C>, key: K, keyOf: Fact<K, C> -> Tuple)
    requires Entries(t, key).Success?
    ensures var sorted := Sort(Entries(t, key).value, NewestFirst(keyOf));
      |sorted| == |Entries(t, key).value|
      && (sorted[0] == Entries(t, key).value[0] <==> NoneNewer(t, key, keyOf))
  {
    var entries, rest := Entries(t, key).value, AllButLast(ContentRows(Rows(t, key)));
    assert entries == [entries[0]] + Plain(rest);
    hide Entries, ContentRows, Rows, AllButLast, TotalPreorder, Sort, TupleLe;
    NewestFirstIsPreorder(keyOf);
    FirstStays(entries, NewestFirst(keyOf));
    CurrentBefore(keyOf, entries, rest);
  }

  lemma CurrentBefore<K(!new), C(!new)>(keyOf: Fact<K, C> -> Tuple, entries: seq<Entry<K, C>>, rest: seq<Fact<K, C>>)
    requires entries != [] && entries == [entries[0]] + Plain(rest)
    ensures (forall e :: e in entries ==> NewestFirst(keyOf)(entries[0], e)) <==>
            (forall f :: f in rest ==> TupleLe(keyOf(f), keyOf(entries[0].fact)))
  {
    hide TupleLe;
    TupleLeTotal(keyOf(entries[0].fact), keyOf(entries[0].fact));
    if forall e :: e in entries ==> NewestFirst(keyOf)(entries[0], e) {
      forall f | f in rest ensures TupleLe(keyOf(f), keyOf(entries[0].fact)) {
        var i :| 0 <= i < |rest| && rest[i] == f;
        assert entries[i + 1] == Entry(f, false);
        assert entries[i + 1] in entries;
      }
    }
    if forall f :: f in rest ==> TupleLe(keyOf(f), keyOf(entries[0].fact)) {
      forall e | e in entries ensures NewestFirst(keyOf)(entries[0], e) {
        var i :| 0 <= i < |entries| && entries[i] == e;
        if i > 0 { assert entries[i] == Entry(rest[i - 1], false); }
      }
    }
  }

  lemma CurrentIsNewest<K, C>(t: Table<K, C>, key: K, i: int)
    requires Agrees(t, key) && Chronological(t, key) && Entries(t, key).Success?
    requires 0 <= i < |ContentRows(Rows(t, key))| - 1
    ensures StrLess(ContentRows(Rows(t, key))[i].observedAt, Entries(t, key).value[0].fact.observedAt)
  {
    var history := ContentRows(Rows(t, key));
    var a, b, c := history[i].observedAt, history[|history| - 1].observedAt, Entries(t, key).value[0].fact.observedAt;
    assert StrLe(b, c) by { StrLeTotal(b, b); }
    StrLeTransitive(a, b, c);
    StrLeTotal(a, b);
    if a == c { StrLeTotal(b, c); }
  }

  // ----- observations in the order of their timestamps -----

  /** The operation at `j` observes the key, and what it observes differs from what is live: it adds a row. */
  ghost predicate AddsRow<K, C>(ops: seq<Op<K, C>>, key: K, j: nat) {
    j < |ops| && Puts(ops[j], key) && ContentDiffers(AfterAny(ops[..j]), ops[j].fact)
  }

  /**
   An observation is stamped no earlier than the rows before it, and later if it adds a row
   itself. Repeated observations may share a time, and tombstones may carry any.
   */
  ghost predicate Timeline<K, C>(ops: seq<Op<K, C>>, key: K) {
    forall i, j :: 0 <= i < j < |ops| && AddsRow(ops, key, i) && Puts(ops[j], key) ==>
      && StrLe(ops[i].fact.observedAt, ops[j].fact.observedAt)
      && (AddsRow(ops, key, j) ==> ops[i].fact.observedAt != ops[j].fact.observedAt)
  }

  lemma AddsRowBefore<K, C>(ops: seq<Op<K, C>>, key: K, i: nat)
    requires i < |ops| - 1
    ensures AddsRow(ops[..|ops| - 1], key, i) <==> AddsRow(ops, key, i)
  {
    assert ops[..|ops| - 1][..i] == ops[..i];
  }

  /** Every content row was added by some operation. */
  lemma {:induction false} RowsComeFromOps<K, C>(ops: seq<Op<K, C>>, key: K, f: Fact<K, C>) returns (i: nat)
    requires f in ContentRows(Rows(AfterAny(ops), key))
    ensures AddsRow(ops, key, i) && ops[i].fact == f
  {
    var before, last := ops[..|ops| - 1], ops[|ops| - 1];
    RowsStep(AfterAny(before), last, key);
    if f in ContentRows(Rows(AfterAny(before), key)) {
      i := RowsComeFromOps(before, key, f);
      AddsRowBefore(ops, key, i);
    } else {
      i := |ops| - 1;
    }
  }

  /** What one more observation must respect: the rows already there. */
  ghost predicate InTime<K, C>(t: Table<K, C>, fact: Fact<K, C>) {
    forall f :: f in ContentRows(Rows(t, fact.key)) ==>
      && StrLe(f.observedAt, fact.observedAt)
      && (ContentDiffers(t, fact) ==> f.observedAt != fact.observedAt)
  }

  lemma StepChronological<K, C>(t: Table<K, C>, op: Op<K, C>, key: K)
    requires Chronological(t, key) && (Puts(op, key) ==> InTime(t, op.fact))
    ensures Chronological(Perform(t, op), key)
  {
    RowsStep(t, op, key);
    hide Rows, ContentRows;
    var history := ContentRows(Rows(t, key));
    if Puts(op, key) {
      StrLeTotal(op.fact.observedAt, op.fact.observedAt);
      forall i | 0 <= i < |history|
        ensures StrLe(history[i].observedAt, op.fact.observedAt)
        ensures ContentDiffers(t, op.fact) ==> history[i].observedAt != op.fact.observedAt
      {
        assert history[i] in history;
      }
    }
  }

  lemma TimelineInTime<K, C>(ops: seq<Op<K, C>>, key: K)
    requires Timeline(ops, key) && ops != [] && Puts(ops[|ops| - 1], key)
    ensures InTime(AfterAny(ops[..|ops| - 1]), ops[|ops| - 1].fact)
  {
    var before, last := ops[..|ops| - 1], ops[|ops| - 1];
    forall f | f in ContentRows(Rows(AfterAny(before), key))
      ensures StrLe(f.observedAt, last.fact.observedAt)
      ensures ContentDiffers(AfterAny(before), last.fact) ==> f.observedAt != last.fact.observedAt
    {
      var i := RowsComeFromOps(before, key, f);
      AddsRowBefore(ops, key, i);
      assert AddsRow(ops, key, |ops| - 1) <==> ContentDiffers(AfterAny(before), last.fact);
    }
  }

  /** Any sequence of operations stamped in that order leaves a chronological history. */
  lemma {:induction false} TimelineIsChronological<K, C>(ops: seq<Op<K, C>>, key: K)
    requires Timeline(ops, key)
    ensures Chronological(AfterAny(ops), key)
  {
    hide Chronological, InTime, Perform;
    if ops == [] {
      EmptyIsChronological(AfterAny(ops), key);
    } else {
      var before, last := ops[..|ops| - 1], ops[|ops| - 1];
      TimelineBefore(ops, key);
      TimelineIsChronological(before, key);
      if Puts(last, key) { TimelineInTime(ops, key); }
      StepChronological(AfterAny(before), last, key);
    }
  }

  lemma TimelineBefore<K, C>(ops: seq<Op<K, C>>, key: K)
    requires Timeline(ops, key) && ops != []
    ensures Timeline(ops[..|ops| - 1], key)
  {
    hide AddsRow;
    forall i: nat | i < |ops| - 1 ensures AddsRow(ops[..|ops| - 1], key, i) <==> AddsRow(ops, key, i) {
      AddsRowBefore(ops, key, i);
    }
  }

  lemma EmptyIsChronological<K, C>(t: Table<K, C>, key: K)
    requires t.live == map[] && t.history == map[]
    ensures Chronological(t, key)
  {
    assert Rows(t, key) == [];
  }

  lemma {:induction false} AfterAgrees<K, C>(ops: seq<Op<K, C>>)
    requires After(ops).Some?
    ensures After(ops).value == AfterAny(ops)
    decreases |ops|
  {
    if ops != [] { AfterAgrees(ops[..|ops| - 1]); }
  }

  // ----- the tool -----

  datatype ExplainResult<K, C> = ExplainResult(page: Page<Entry<K, C>>, totalCount: nat)

  /** Everything observed of the key, newest first. */
  function Sorted<K, C>(t: Table<K, C>, key: K, keyOf: Fact<K, C> -> Tuple): (r: seq<Entry<K, C>>)
    requires Entries(t, key).Success?
  {
    Sort(Entries(t, key).value, NewestFirst(keyOf))
  }

  /**
   One request. With strictly ordered keys, and no cursor or the key of item `d - 1`, it gives
   the items from `d` on, up to `limit`; with any other cursor, items past it.
   */
  method Explain<K, C>(t: Table<K, C>, key: K, keyOf: Fact<K, C> -> Tuple, limit: int, cursor: Option<Tuple>)
    returns (r: Result<ExplainResult<K, C>, ExplainError>)
    ensures Entries(t, key).Failure? ==> r == Failure(Entries(t, key).error)
    ensures Entries(t, key).Success? && limit <= 0 ==> r == Failure(LimitRefused)
    ensures Entries(t, key).Success? && limit > 0 ==>
              && r.Success? && r.value.totalCount == |Entries(t, key).value|
              && PagePast(Sorted(t, key, keyOf), EntryKey(keyOf), true, limit, cursor, r.value.page)
              && forall d: nat ::
                   d <= |Sorted(t, key, keyOf)| && StrictlyOrdered(Sorted(t, key, keyOf), EntryKey(keyOf), true)
                   && StartsAt(Sorted(t, key, keyOf), EntryKey(keyOf), cursor, d) ==>
                     PageFrom(Sorted(t, key, keyOf), EntryKey(keyOf), limit, d, r.value.page)
  {
    hide PagePast, PageFrom, StrictlyOrdered, StartsAt, FilterSince, Sort, Entries;
    var entries := CollectEntries(t, key);
    if entries.Failure? { return Failure(entries.error); }
    var sorted := Sort(entries.value, NewestFirst(keyOf));
    var remaining := FilterSince(sorted, cursor, EntryKey(keyOf), true);
    var page := Paginate(remaining, limit, EntryKey(keyOf));
    if page.Failure? { return Failure(LimitRefused); }
    PaginatePast(sorted, EntryKey(keyOf), true, limit, cursor);
    forall d: nat | d <= |sorted| && StrictlyOrdered(sorted, EntryKey(keyOf), true)
                    && StartsAt(sorted, EntryKey(keyOf), cursor, d)
      ensures PageFrom(sorted, EntryKey(keyOf), limit, d, page.value)
    {
      PaginateFrom(sorted, EntryKey(keyOf), true, limit, cursor, d);
    }
    return Success(ExplainResult(page.value, |entries.value|));
  }

  /** A key's whole history as a client should see it: the current fact, then the earlier ones, newest first. */
  function WholeHistory<K, C>(t: Table<K, C>, key: K): seq<Entry<K, C>>
    requires Entries(t, key).Success?
  {
    [Entries(t, key).value[0]] + Reverse(Plain(AllButLast(ContentRows(Rows(t, key)))))
  }

  /** A client that asks again with each `next` until a page is not truncated. */
  method ReadPages<K, C>(t: Table<K, C>, key: K, keyOf: Fact<K, C> -> Tuple, limit: nat, ghost all: seq<Entry<K, C>>)
    returns (r: Result<seq<Entry<K, C>>, ExplainError>, requests: nat)
    requires limit > 0
    requires Entries(t, key).Success? ==>
               all == Sorted(t, key, keyOf) && all != [] && StrictlyOrdered(all, EntryKey(keyOf), true)
    ensures Entries(t, key).Failure? ==> r == Failure(Entries(t, key).error)
    ensures Entries(t, key).Success? ==> r == Success(all) && (requests - 1) * limit < |all| <= requests * limit
  {
    hide PagePast, PageFrom, StartsAt, StrictlyOrdered, Entries, Sorted;
    requests := 0;
    var read: seq<Entry<K, C>>, cursor, more := [], None, true;
    assert Entries(t, key).Success? ==> StartsAt(all, EntryKey(keyOf), None, 0) by { FirstPage(all, EntryKey(keyOf)); }
    while more
      invariant |read| <= |all| && read == all[..|read|]
      invariant Entries(t, key).Failure? ==> more && requests == 0
      invariant more ==> |read| == requests * limit
      invariant more && Entries(t, key).Success? ==> |read| < |all| && StartsAt(all, EntryKey(keyOf), cursor, |read|)
      invariant !more ==> read == all && (requests - 1) * limit < |read| <= requests * limit
      decreases more, |all| - |read|
    {
      var answer := Explain(t, key, keyOf, limit, cursor);
      if answer.Failure? { return Failure(answer.error), requests; }
      var page := answer.value.page;
      PageExtends(all, EntryKey(keyOf), limit, |read|, page);
      assert (requests + 1) * limit == requests * limit + limit;
      read, cursor, more, requests := read + page.items, page.next, page.truncated, requests + 1;
    }
    r := Success(read);
  }

  /**
   Such a client has then read the whole history, every entry once and in order, in as many
   requests as the entries fill.
   */
  method ReadHistory<K(!new), C(!new)>(t: Table<K, C>, key: K, keyOf: Fact<K, C> -> Tuple, limit: nat)
    returns (r: Result<seq<Entry<K, C>>, ExplainError>, requests: nat)
    requires limit > 0 && Timed(keyOf) && Agrees(t, key) && Chronological(t, key)
    ensures Rows(t, key) == [] ==> r == Failure(NeverObserved)
    ensures Rows(t, key) != [] ==> Entries(t, key).Success? && r == Success(WholeHistory(t, key))
    ensures r.Success? ==> (requests - 1) * limit < |r.value| <= requests * limit
  {
    hide Timed, Agrees, Chronological, StrictlyOrdered, Sort, Reverse;
    EntriesOfHistory(t, key);
    if Entries(t, key).Success? { CurrentFactFirst(t, key, keyOf); }
    ghost var all := if Entries(t, key).Success? then Sorted(t, key, keyOf) else [];
    hide Entries, Rows;
    r, requests := ReadPages(t, key, keyOf, limit, all);
  }

  // ----- the keys of symbols and relations -----

  function ConfidenceValue(c: Confidence): string {
    match c case EXTRACTED => "EXTRACTED" case INFERRED => "INFERRED" case AMBIGUOUS => "AMBIGUOUS"
  }

  function SymbolKey(): Symbol -> Tuple {
    (s: Symbol) => [Text(s.observedAt), Text(s.content.path), Text(s.content.qualname), Text(s.content.kind),
                    Num(s.content.startLine), Num(s.content.startCol), Num(s.content.endLine), Num(s.content.endCol),
                    Text(ConfidenceValue(s.content.confidence)), Text(s.content.provider), Text(s.content.version)]
  }

  function RelationSortKey(): Relation -> Tuple {
    (r: Relation) => [Text(r.observedAt), Text(ConfidenceValue(r.content.confidence)),
                      Text(r.content.provider), Text(r.content.version)]
  }

  /** At one time of observation rows are ordered by the names of their confidences. */
  lemma ConfidencesByName(k: RelationKey, provider: string, version: string, at: string)
    ensures RelationSortKey()(Fact(k, RelationContent(EXTRACTED, provider, version), at))
            == [Text(at), Text("EXTRACTED"), Text(provider), Text(version)]
    ensures RelationSortKey()(Fact(k, RelationContent(INFERRED, provider, version), at))
            == [Text(at), Text("INFERRED"), Text(provider), Text(version)]
    ensures RelationSortKey()(Fact(k, RelationContent(AMBIGUOUS, provider, version), at))
            == [Text(at), Text("AMBIGUOUS"), Text(provider), Text(version)]
  {
  }

  /** A relation's rows are told apart by their sort keys. */
  lemma RelationKeyTells(a: Relation, b: Relation)
    requires a.key == b.key
    ensures RelationSortKey()(a) == RelationSortKey()(b) <==> a == b
  {
    var s, t := RelationSortKey()(a), RelationSortKey()(b);
    if s == t { assert s[0] == t[0] && s[1] == t[1] && s[2] == t[2] && s[3] == t[3]; }
  }

  /** A symbol's rows are, unless they differ in nothing but being a stub. */
  lemma SymbolKeyTells(a: Symbol, b: Symbol)
    requires a.key == b.key
    ensures SymbolKey()(a) == SymbolKey()(b) <==> a == b.(content := b.content.(isStub := a.content.isStub))
  {
    var s, t := SymbolKey()(a), SymbolKey()(b);
    if s == t {
      assert s[0] == t[0] && s[1] == t[1] && s[2] == t[2] && s[3] == t[3] && s[4] == t[4] && s[5] == t[5];
      assert s[6] == t[6] && s[7] == t[7] && s[8] == t[8] && s[9] == t[9] && s[10] == t[10];
    }
  }

  lemma KeysAreTimed()
    ensures Timed(SymbolKey()) && Timed(RelationSortKey())
  {
  }

  /**
   For example a call resolved by enrichment at time "1", whose write is queued behind that of an
   index job which runs at "2" and finds it ambiguous: the current row sorts behind the earlier one.
   */
  lemma LateWriteSortsBehind(key: RelationKey, version: string)
    ensures var earlier := Fact(key, RelationContent(AMBIGUOUS, "tree-sitter", version), "2");
      var current := Fact(key, RelationContent(INFERRED, "basedpyright", version), "1");
      var t := AfterAny([Put(earlier), Put(current)]);
      && key in t.live && t.live[key] == current
      && Entries(t, key) == Success([Entry(current, false), Entry(earlier, false)])
      && Sort(Entries(t, key).value, NewestFirst(RelationSortKey())) == [Entry(earlier, false), Entry(current, false)]
  {
    var earlier := Fact(key, RelationContent(AMBIGUOUS, "tree-sitter", version), "2");
    var current := Fact(key, RelationContent(INFERRED, "basedpyright", version), "1");
    TwoWrites(key, earlier, current);
    hide AfterAny, Rows, ContentRows;
    assert "1"[0] < "2"[0];
    assert !TupleLe(RelationSortKey()(earlier), RelationSortKey()(current));
    SortTwo(Entry(current, false), Entry(earlier, false), NewestFirst(RelationSortKey()));
  }

  lemma SortTwo<T>(a: T, b: T, le: (T, T) -> bool)
    ensures Sort([a, b], le) == if le(a, b) then [a, b] else [b, a]
  {
    assert [a, b][1..] == [b] && [b][1..] == [];
    assert Sort([b], le) == [b];
    assert Insert(a, [], le) == [a];
  }

  lemma TwoWrites<K, C>(key: K, earlier: Fact<K, C>, current: Fact<K, C>)
    requires earlier.key == key == current.key && earlier.content != current.content
    ensures var t := AfterAny([Put(earlier), Put(current)]);
      && key in t.live && t.live[key] == current
      && Entries(t, key) == Success([Entry(current, false), Entry(earlier, false)])
  {
    var ops := [Put(earlier), Put(current)];
    assert ops[..1] == [Put(earlier)] && ops[..1][..0] == [];
    var one := AfterAny(ops[..1]);
    RowsStep(AfterAny(ops[..0]), Put(earlier), key);
    RowsStep(one, Put(current), key);
    var t := AfterAny(ops);
    assert t == Perform(one, Put(current));
    assert ContentRows(Rows(one, key)) == [earlier];
    assert one.live[key] == earlier;
    assert ContentRows(Rows(t, key)) == [earlier, current];
    assert Entries(t, key) == Success([Entry(current, false)] + Plain(AllButLast([earlier, current])));
    assert [Entry(current, false)] + Plain(AllButLast([earlier, current]))
           == [Entry(current, false), Entry(earlier, false)];
  }

  /** After any operations on live keys, stamped in order, a client reads a symbol's whole history. */
  method ReadSymbolHistory(t: SymbolTable, id: SymbolId, limit: nat, ghost ops: seq<Op<SymbolId, SymbolContent>>)
    returns (r: Result<seq<Entry<SymbolId, SymbolContent>>, ExplainError>)
    requires limit > 0 && After(ops) == Some(t) && Timeline(ops, id)
    ensures Rows(t, id) == [] ==> r == Failure(NeverObserved)
    ensures Rows(t, id) != [] ==> Entries(t, id).Success? && r == Success(WholeHistory(t, id))
  {
    hide Timed, Timeline, Agrees, Chronological, Entries, WholeHistory, SymbolKey, Rows;
    KeysAreTimed();
    AfterAgrees(ops);
    TimelineIsChronological(ops, id);
    HistoryAgrees(ops, id);
    var requests;
    r, requests := ReadHistory(t, id, SymbolKey(), limit);
  }

  /** The same for a relation. */
  method ReadRelationHistory(t: RelationTable, key: RelationKey, limit: nat,
                             ghost ops: seq<Op<RelationKey, RelationContent>>)
    returns (r: Result<seq<Entry<RelationKey, RelationContent>>, ExplainError>)
    requires limit > 0 && After(ops) == Some(t) && Timeline(ops, key)
    ensures Rows(t, key) == [] ==> r == Failure(NeverObserved)
    ensures Rows(t, key) != [] ==> Entries(t, key).Success? && r == Success(WholeHistory(t, key))
  {
    hide Timed, Timeline, Agrees, Chronological, Entries, WholeHistory, RelationSortKey, Rows;
    KeysAreTimed();
    AfterAgrees(ops);
    TimelineIsChronological(ops, key);
    HistoryAgrees(ops, key);
    var requests;
    r, requests := ReadHistory(t, key, RelationSortKey(), limit);
  }
}
