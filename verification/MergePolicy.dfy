/**
 How enrichment results enter the relation store: a write never weakens a more certain row, and
 it retires the ambiguous rows at its site that the same pass no longer supports.
 */
module MergePolicy {
  import opened Wrappers
  import opened Facts
  import opened FactTable
  import opened Indexer

  datatype MergeOutcome = MergeOutcome(applied: bool, retiredSiblings: nat)

  /** Same source, predicate and site. */
  predicate SameSite(a: RelationKey, b: RelationKey) {
    a.(target := b.target) == b
  }

  /** Held as something the incoming confidence would weaken. */
  predicate Regresses(live: Relations, k: RelationKey, incoming: Confidence) {
    k in live && ConfidenceRank(incoming) > ConfidenceRank(live[k].confidence)
  }

  predicate StaleSibling(live: Relations, k: RelationKey, incoming: Confidence, targets: Option<set<string>>,
                         sibling: RelationKey) {
    && SameSite(sibling, k) && sibling.target != k.target
    && sibling in live && live[sibling].confidence == AMBIGUOUS
    && (incoming != AMBIGUOUS || (targets.Some? && sibling.target !in targets.value))
  }

  function StaleSiblings(live: Relations, k: RelationKey, incoming: Confidence,
                         targets: Option<set<string>>): set<RelationKey> {
    set s | s in live && StaleSibling(live, k, incoming, targets, s)
  }

  /** The live contents one write leaves. */
  function Merge(live: Relations, k: RelationKey, c: RelationContent, targets: Option<set<string>>,
                 preserve: bool): Relations {
    if Regresses(live, k, c.confidence) then live
    else if preserve then live[k := c]
    else live[k := c] - StaleSiblings(live, k, c.confidence, targets)
  }

  /** Whatever is written, no extracted or inferred row is deleted or becomes less certain. */
  lemma MergeNeverWeakens(live: Relations, k: RelationKey, c: RelationContent, targets: Option<set<string>>,
                          preserve: bool, held: RelationKey)
    requires held in live && live[held].confidence != AMBIGUOUS
    ensures var after := Merge(live, k, c, targets, preserve);
      held in after && ConfidenceRank(after[held].confidence) <= ConfidenceRank(live[held].confidence)
  {
  }

  /** A row some write would weaken: the write is less certain than what is held. */
  ghost predicate MoreCertain(held: Confidence, incoming: Confidence) {
    (held == EXTRACTED && incoming != EXTRACTED) || (held == INFERRED && incoming == AMBIGUOUS)
  }

  /** Another target at the same place: same source, predicate, file, line and column. */
  ghost predicate OtherTarget(k: RelationKey, other: RelationKey) {
    && other.source == k.source && other.predicate_ == k.predicate_ && other.siteFile == k.siteFile
    && other.siteLine == k.siteLine && other.siteCol == k.siteCol && other.target != k.target
  }

  /** An ambiguous row goes when a resolved target enters its place, or a pass that no longer finds it. */
  ghost predicate GivesWay(held: Confidence, incoming: Confidence, targets: Option<set<string>>, target: string) {
    held == AMBIGUOUS && (incoming == EXTRACTED || incoming == INFERRED || (targets.Some? && target !in targets.value))
  }

  /**
   One write, whatever its confidence and target set: refused, it changes nothing; otherwise its
   row is live, the rows that give way to it are gone, none if siblings are preserved, and every
   other row is as it was.
   */
  lemma WriteSettles(live: Relations, k: RelationKey, c: RelationContent, targets: Option<set<string>>, preserve: bool)
    ensures var after := Merge(live, k, c, targets, preserve);
      if k in live && MoreCertain(live[k].confidence, c.confidence) then after == live
      else
        && k in after && after[k] == c
        && forall o :: o != k ==>
             if o in live && !preserve && OtherTarget(k, o)
                && GivesWay(live[o].confidence, c.confidence, targets, o.target)
             then o !in after
             else (o in after <==> o in live) && (o in live ==> after[o] == live[o])
  {
  }

  // ----- the store operations -----

  class RelationStore {
    var table: RelationTable

    constructor (table: RelationTable)
      ensures this.table == table
    {
      this.table := table;
    }

    method Put(relation: Relation)
      modifies this
      ensures table == Upsert(old(table), relation)
    {
      table := Upsert(table, relation);
    }

    method Remove(key: RelationKey, at: string)
      modifies this
      ensures table == Delete(old(table), key, at)
    {
      table := Delete(table, key, at);
    }

    /** One enrichment write: its outcome, its effect on the live contents, and that only live rows are deleted. */
    method ApplyEnrichmentWrite(relation: Relation, targets: Option<set<string>>, preserveSiblings: bool)
      returns (outcome: MergeOutcome)
      modifies this
      ensures var live := Contents(old(table));
        var retired :=
          if preserveSiblings then {} else StaleSiblings(live, relation.key, relation.content.confidence, targets);
        && Contents(table) == Merge(live, relation.key, relation.content, targets, preserveSiblings)
        && outcome == (if Regresses(live, relation.key, relation.content.confidence) then MergeOutcome(false, 0)
                       else MergeOutcome(true, |retired|))
        && table == (if outcome.applied then DeleteAll(Upsert(old(table), relation), retired, relation.observedAt)
                     else old(table))
      ensures var live, after := Contents(old(table)), Contents(table);
        && (outcome.applied <==> !(relation.key in live
                                   && MoreCertain(live[relation.key].confidence, relation.content.confidence)))
        && outcome.retiredSiblings == |live.Keys - after.Keys|
    {
      ghost var live := Contents(table);
      RowsLost(live, relation.key, relation.content, targets, preserveSiblings);
      if relation.key in table.live
         && ConfidenceRank(relation.content.confidence) > ConfidenceRank(table.live[relation.key].content.confidence) {
        return MergeOutcome(false, 0);
      }
      assert !Regresses(live, relation.key, relation.content.confidence);
      Put(relation);
      ContentsUpsert(old(table), relation);
      DeleteNone(table, relation.observedAt);
      var retired := 0;
      if !preserveSiblings { retired := RetireStaleSiblings(relation, targets); }
      UpsertKeepsSiblings(live, relation.key, relation.content, targets);
      ContentsDeleted(Upsert(old(table), relation),
                      StaleSiblings(live, relation.key, relation.content.confidence, targets), relation.observedAt);
      outcome := MergeOutcome(true, retired);
    }

    method RetireStaleSiblings(relation: Relation, targets: Option<set<string>>) returns (retired: nat)
      modifies this
      ensures var stale := StaleSiblings(Contents(old(table)), relation.key, relation.content.confidence, targets);
        table == DeleteAll(old(table), stale, relation.observedAt) && retired == |stale|
    {
      ghost var none := StaleSiblings(Contents(table), relation.key, relation.content.confidence, targets);
      DeleteNone(table, relation.observedAt);
      if relation.content.confidence == AMBIGUOUS && targets.None? {
        assert none == {};
        return 0;
      }
      var stale := set s | s in table.live && SameSite(s, relation.key) && s.target != relation.key.target
                           && table.live[s].content.confidence == AMBIGUOUS
                           && (relation.content.confidence != AMBIGUOUS || s.target !in targets.value);
      assert stale == none;
      var rest := stale;
      assert stale - rest == {};
      while rest != {}
        invariant rest <= stale
        invariant table == DeleteAll(old(table), stale - rest, relation.observedAt)
        decreases rest
      {
        var s :| s in rest;
        ghost var done := stale - rest;
        rest := rest - {s};
        DeleteAllStep(old(table), done, s, relation.observedAt);
        assert stale - rest == done + {s};
        Remove(s, relation.observedAt);
      }
      assert stale - rest == stale;
      retired := |stale|;
    }
  }

  lemma RowsLost(live: Relations, k: RelationKey, c: RelationContent, targets: Option<set<string>>, preserve: bool)
    ensures live.Keys - Merge(live, k, c, targets, preserve).Keys ==
            if preserve || Regresses(live, k, c.confidence) then {} else StaleSiblings(live, k, c.confidence, targets)
    ensures Regresses(live, k, c.confidence) <==> k in live && MoreCertain(live[k].confidence, c.confidence)
  {
  }

  lemma UpsertKeepsSiblings(live: Relations, k: RelationKey, c: RelationContent, targets: Option<set<string>>)
    ensures StaleSiblings(live[k := c], k, c.confidence, targets) == StaleSiblings(live, k, c.confidence, targets)
  {
  }

  // ----- one pass of ambiguous candidates at one site -----

  /** The candidates of one pass, written one after another with the pass's target set. */
  function MergeAll(live: Relations, site: RelationKey, c: RelationContent, written: seq<string>,
                    targets: set<string>): Relations {
    if written == [] then live
    else Merge(MergeAll(live, site, c, written[..|written| - 1], targets),
               site.(target := written[|written| - 1]), c, Some(targets), false)
  }

  /** Held there as extracted or inferred. */
  predicate HeldCertain(live: Relations, site: RelationKey, target: string) {
    site.(target := target) in live && live[site.(target := target)].confidence != AMBIGUOUS
  }

  /** Some write of these targets is not refused. */
  ghost predicate SomeApplied(live: Relations, site: RelationKey, written: seq<string>) {
    exists t :: t in written && !HeldCertain(live, site, t)
  }

  /** What one key holds after the targets `written` of a pass with target set `targets`. */
  ghost function Settled(live: Relations, site: RelationKey, c: RelationContent, written: seq<string>,
                         targets: set<string>, k: RelationKey): Option<RelationContent> {
    var before := if k in live then Some(live[k]) else None;
    if !SameSite(k, site) then before
    else if k.target in written then (if HeldCertain(live, site, k.target) then before else Some(c))
    else if k.target in targets then before
    else if before.Some? && before.value.confidence == AMBIGUOUS && SomeApplied(live, site, written) then None
    else before
  }

  lemma {:induction false} MergeAllSettles(live: Relations, site: RelationKey, c: RelationContent, written: seq<string>,
                                           targets: set<string>, k: RelationKey)
    requires c.confidence == AMBIGUOUS && forall t :: t in written ==> t in targets
    ensures var after := MergeAll(live, site, c, written, targets);
      (if k in after then Some(after[k]) else None) == Settled(live, site, c, written, targets, k)
  {
    if written != [] {
      var before, last := written[..|written| - 1], written[|written| - 1];
      MergeAllSettles(live, site, c, before, targets, k);
      MergeAllSettles(live, site, c, before, targets, site.(target := last));
      assert written == before + [last];
      MergeOneMore(live, site, c, before, last, targets, k);
    }
  }

  lemma MergeOneMore(live: Relations, site: RelationKey, c: RelationContent, before: seq<string>, last: string,
                     targets: set<string>, k: RelationKey)
    requires c.confidence == AMBIGUOUS && last in targets && forall t :: t in before ==> t in targets
    requires var now := MergeAll(live, site, c, before, targets);
      && (if k in now then Some(now[k]) else None) == Settled(live, site, c, before, targets, k)
      && (if site.(target := last) in now then Some(now[site.(target := last)]) else None)
         == Settled(live, site, c, before, targets, site.(target := last))
    ensures var after := Merge(MergeAll(live, site, c, before, targets),
                               site.(target := last), c, Some(targets), false);
      (if k in after then Some(after[k]) else None) == Settled(live, site, c, before + [last], targets, k)
  {
    AppliedSplit(live, site, before, last);
    hide MergeAll;
    var now, key := MergeAll(live, site, c, before, targets), site.(target := last);
    assert Regresses(now, key, AMBIGUOUS) <==> HeldCertain(live, site, last);
    if !SameSite(k, site) {
      assert !StaleSibling(now, key, AMBIGUOUS, Some(targets), k) && k != key;
    } else if k.target == last {
      assert k == key;
    } else {
      assert k != key;
      assert StaleSibling(now, key, AMBIGUOUS, Some(targets), k) <==>
             k in now && now[k].confidence == AMBIGUOUS && k.target !in targets;
    }
  }

  lemma AppliedSplit(live: Relations, site: RelationKey, before: seq<string>, last: string)
    ensures SomeApplied(live, site, before + [last]) <==>
            SomeApplied(live, site, before) || !HeldCertain(live, site, last)
  {
    if SomeApplied(live, site, before) {
      var t :| t in before && !HeldCertain(live, site, t);
      assert t in before + [last];
    }
    assert last in before + [last];
  }

  ghost predicate Covers(written: seq<string>, targets: set<string>) {
    forall t :: t in written <==> t in targets
  }

  lemma AppliedAlike(live: Relations, site: RelationKey, a: seq<string>, b: seq<string>)
    requires forall t :: t in a <==> t in b
    ensures SomeApplied(live, site, a) <==> SomeApplied(live, site, b)
  {
  }

  /** Whatever the order of the pass's writes, the final rows are the same. */
  lemma MergeOrderIrrelevant(live: Relations, site: RelationKey, c: RelationContent, targets: set<string>,
                             a: seq<string>, b: seq<string>)
    requires c.confidence == AMBIGUOUS && Covers(a, targets) && Covers(b, targets)
    ensures MergeAll(live, site, c, a, targets) == MergeAll(live, site, c, b, targets)
  {
    hide MergeAll, SomeApplied;
    var x, y := MergeAll(live, site, c, a, targets), MergeAll(live, site, c, b, targets);
    AppliedAlike(live, site, a, b);
    forall k ensures (k in x <==> k in y) && (k in x ==> x[k] == y[k]) {
      MergeAllSettles(live, site, c, a, targets, k);
      MergeAllSettles(live, site, c, b, targets, k);
    }
    assert x.Keys == y.Keys;
  }

  /** Every target of the pass ends live, and whatever was extracted or inferred anywhere is untouched. */
  lemma PassKeepsAndAdds(live: Relations, site: RelationKey, c: RelationContent, targets: set<string>,
                         written: seq<string>, k: RelationKey)
    requires c.confidence == AMBIGUOUS && Covers(written, targets)
    ensures var after := MergeAll(live, site, c, written, targets);
      && (SameSite(k, site) && k.target in targets ==> k in after)
      && (k in live && live[k].confidence != AMBIGUOUS ==> k in after && after[k] == live[k])
      && (!SameSite(k, site) ==> (k in after <==> k in live) && (k in live ==> after[k] == live[k]))
  {
    hide MergeAll;
    MergeAllSettles(live, site, c, written, targets, k);
    if SameSite(k, site) { assert k == site.(target := k.target); }
  }

  ghost predicate OnlyTargetsAmbiguous(rows: Relations, site: RelationKey, targets: set<string>) {
    forall k :: k in rows && SameSite(k, site) && rows[k].confidence == AMBIGUOUS ==> k.target in targets
  }

  /**
   After the pass the ambiguous rows at the site all have targets of the pass, exactly when some
   target was not already held more certainly, or no other ambiguous row was there to begin with:
   refused writes retire nothing.
   */
  lemma StaleRowsRetired(live: Relations, site: RelationKey, c: RelationContent, targets: set<string>,
                         written: seq<string>)
    requires c.confidence == AMBIGUOUS && Covers(written, targets)
    ensures OnlyTargetsAmbiguous(MergeAll(live, site, c, written, targets), site, targets) <==>
            (exists t :: t in targets && !HeldCertain(live, site, t)) || OnlyTargetsAmbiguous(live, site, targets)
  {
    hide MergeAll;
    var after := MergeAll(live, site, c, written, targets);
    assert SomeApplied(live, site, written) <==> exists t :: t in targets && !HeldCertain(live, site, t) by {
      if SomeApplied(live, site, written) { var t :| t in written && !HeldCertain(live, site, t); assert t in targets; }
    }
    forall k ensures (if k in after then Some(after[k]) else None) == Settled(live, site, c, written, targets, k) {
      MergeAllSettles(live, site, c, written, targets, k);
    }
    if !SomeApplied(live, site, written) && !OnlyTargetsAmbiguous(live, site, targets) {
      var k :| k in live && SameSite(k, site) && live[k].confidence == AMBIGUOUS && k.target !in targets;
      MergeAllSettles(live, site, c, written, targets, k);
    }
  }

  /** For example: both candidates are held as inferred, so their writes are refused and a stale row stays. */
  lemma StaleRowSurvives(site: RelationKey, held: RelationContent, stale: RelationContent, c: RelationContent)
    requires held.confidence == INFERRED && stale.confidence == AMBIGUOUS && c.confidence == AMBIGUOUS
    ensures var live := map[site.(target := "a") := held, site.(target := "b") := held, site.(target := "c") := stale];
      && MergeAll(live, site, c, ["a", "b"], {"a", "b"}) == live
      && !OnlyTargetsAmbiguous(live, site, {"a", "b"})
  {
    var live := map[site.(target := "a") := held, site.(target := "b") := held, site.(target := "c") := stale];
    var targets := {"a", "b"};
    assert ["a", "b"][..1] == ["a"] && ["a"][..0] == [];
    assert MergeAll(live, site, c, [], targets) == live;
    assert MergeAll(live, site, c, ["a"], targets) == live;
    assert site.(target := "c") in live && "c" !in targets;
  }

  /**
   What a pass leaves that resolves a place to one target: nothing new if the target was extracted
   there already; otherwise the target as resolved, and no ambiguous alternative beside it.
   */
  ghost predicate OneResolved(live: Relations, after: Relations, k: RelationKey, c: RelationContent) {
    if k in live && live[k].confidence == EXTRACTED then after == live
    else
      && k in after && after[k] == c
      && (forall o :: OtherTarget(k, o) && o in after ==> after[o].confidence != AMBIGUOUS)
      && (forall o :: o != k && !(OtherTarget(k, o) && o in live && live[o].confidence == AMBIGUOUS) ==>
            (o in after <==> o in live) && (o in live ==> after[o] == live[o]))
  }

  lemma LoneCandidate(live: Relations, site: RelationKey, t: string, c: RelationContent)
    requires c.confidence == INFERRED
    ensures OneResolved(live, MergeAll(live, site, c, [t], {t}), site.(target := t), c)
  {
    assert [t][..0] == [];
    assert MergeAll(live, site, c, [], {t}) == live;
    WriteSettles(live, site.(target := t), c, Some({t}), false);
    hide Merge;
  }

  /** One unresolved site of a pass: a lone candidate is inferred, several are ambiguous together. */
  method EnrichSite(store: RelationStore, site: RelationKey, candidates: seq<string>, provider: string, version: string,
                    at: string)
    modifies store
    ensures var c := RelationContent(if |candidates| == 1 then INFERRED else AMBIGUOUS, provider, version);
      Contents(store.table) == MergeAll(Contents(old(store.table)), site, c, candidates, set t | t in candidates)
    ensures |candidates| == 1 ==>
              OneResolved(Contents(old(store.table)), Contents(store.table), site.(target := candidates[0]),
                          RelationContent(INFERRED, provider, version))
  {
    var targets := set t | t in candidates;
    var c := RelationContent(if |candidates| == 1 then INFERRED else AMBIGUOUS, provider, version);
    for i := 0 to |candidates|
      invariant Contents(store.table) == MergeAll(Contents(old(store.table)), site, c, candidates[..i], targets)
    {
      assert candidates[..i + 1][..i] == candidates[..i];
      var _ := store.ApplyEnrichmentWrite(Fact(site.(target := candidates[i]), c, at), Some(targets), false);
    }
    assert candidates[..|candidates|] == candidates;
    if |candidates| == 1 {
      assert candidates == [candidates[0]] && targets == {candidates[0]};
      LoneCandidate(Contents(old(store.table)), site, candidates[0], c);
    }
  }
}
