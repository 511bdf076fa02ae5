/** `impact_analysis` and `affected_tests`: what depends on a symbol, and which tests exercise it. */
module BlastRadius {
  import opened Wrappers
  import opened Ordering
  import opened Facts
  import opened Traversal
  import opened BoundedWalk
  import opened WalkResults
  import opened RelationGraph
  import opened GraphTool
  import opened PytestConventions

  const IMPACT_PREDICATES := {"calls", "imports", "overrides"}
  const TEST_PREDICATES := {"calls", "overrides"}

  /**
   What both traversals guarantee. `truncated` is exact: it is true if and only if something
   that depends on the root, at whatever distance, is not listed.
   */
  ghost predicate UpstreamAnswer(db: Snapshot, root: string, predicates: set<string>, cap: nat, clamp: nat,
                                 ids: seq<string>, via: map<string, Edge>, truncated: bool) {
    var out, far := EdgesAt(db, false, predicates), FarEnd(false);
    && Distinct(ids) && |ids| <= cap && |ids| > 0 && ids[0] == root
    && NearestFirst(out, far, root, ids)
    && (forall n :: n in ids ==> Within(out, far, root, n, clamp))
    && (|ids| < cap ==> forall n :: n in ids <==> Within(out, far, root, n, clamp))
    && (!truncated <==> AllListed(out, far, root, ids))
    && ids <= Nodes(far, root, Walk(out, far, StrLe, root, clamp).trace)
    && Discovered(far, root, Walk(out, far, StrLe, root, clamp).trace, ids, via)
  }

  /**
   The same told by the relations themselves. A symbol depends on the root by a chain of live
   relations, from the source of one to the source of the next; the relation that discovers it has
   it as source, and as target a symbol listed before that lies exactly one relation nearer.
   */
  ghost predicate UpstreamMeans(db: Snapshot, root: string, predicates: set<string>, cap: nat, clamp: nat,
                                ids: seq<string>, via: map<string, Edge>, truncated: bool) {
    && Listing(db, false, predicates, root, cap, clamp, ids)
    && (!truncated <==> AllRelatedListed(db, false, predicates, root, ids))
    && Discovery(db, false, predicates, root, ids, via)
  }

  lemma AnswerMeansUpstream(db: Snapshot, root: string, predicates: set<string>, cap: nat, clamp: nat,
                            ids: seq<string>, via: map<string, Edge>, truncated: bool)
    requires UpstreamAnswer(db, root, predicates, cap, clamp, ids, via, truncated)
    requires forall n :: n in via ==> FoundFrom(EdgesAt(db, false, predicates), FarEnd(false), root, ids, via[n], n)
    ensures UpstreamMeans(db, root, predicates, cap, clamp, ids, via, truncated)
  {
    hide EdgesAt, FarEnd, Within, NearestFirst, AllListed, Listing, Walk, Nodes, FoundFrom, Discovered, Discovery,
      AllRelatedListed;
    ListingOf(db, false, predicates, root, cap, clamp, ids);
    ListedAlike(db, false, predicates, root, ids);
    DiscoveryOf(db, false, predicates, root, clamp, ids, via);
  }

  method FindMoreNodes<N(==, !new), E(!new)>(out: N -> seq<E>, far: E -> N, frontier: seq<N>, nodes: seq<N>)
    returns (found: bool)
    ensures found <==> NodesLeft(out, far, frontier, nodes)
  {
    for i := 0 to |frontier|
      invariant forall m :: m in frontier[..i] ==> !MoreNodes(out, far, nodes, m)
    {
      var relations := out(frontier[i]);
      for j := 0 to |relations|
        invariant forall e :: e in relations[..j] ==> far(e) in nodes
      {
        if far(relations[j]) !in nodes {
          assert MoreNodes(out, far, nodes, frontier[i]);
          return true;
        }
      }
    }
    return false;
  }

  method TraverseUpstream(db: Snapshot, root: string, predicates: set<string>, cap: nat, clamp: nat)
    returns (nodes: seq<string>, via: map<string, Edge>, truncated: bool)
    requires cap > 0
    ensures UpstreamAnswer(db, root, predicates, cap, clamp, nodes, via, truncated)
    ensures UpstreamMeans(db, root, predicates, cap, clamp, nodes, via, truncated)
  {
    hide UpstreamMeans, FoundFrom, Recorded, Walk, Nodes, Within, AllListed, NearestFirst, EdgesAmong, EdgesAt, FarEnd,
      Discovered;
    var out, far := EdgesAt(db, false, predicates), FarEnd(false);
    var edges, frontier;
    nodes, via, edges, frontier, truncated := Explore(out, far, StrLe, root, cap, clamp);
    ghost var cut := truncated;
    if !truncated && frontier != [] {
      var sorted := Sort(frontier, StrLe);
      SortPermutes(frontier, StrLe);
      truncated := FindMoreNodes(out, far, sorted, nodes);
    }
    NodesExact(out, far, StrLe, root, cap, clamp, nodes, via, edges, frontier, cut);
    Consequences(out, far, StrLe, root, cap, clamp, nodes, via, edges, cut);
    RecordedVia(out, far, root, cap, Walk(out, far, StrLe, root, clamp).trace, nodes, via, edges, cut);
    forall n | n in via ensures FoundFrom(out, far, root, nodes, via[n], n) {
      ViaLeadsFrom(out, far, StrLe, root, cap, clamp, nodes, via, edges, cut, n);
    }
    AnswerMeansUpstream(db, root, predicates, cap, clamp, nodes, via, truncated);
  }

  // ----- what is reported -----

  datatype Affected = Affected(node: Node, discoveryPredicate: string)

  datatype Summary = Summary(extracted: nat, inferred: nat, ambiguous: nat, total: nat)

  predicate IsTestNode(node: Node) {
    node.Resolved? && node.symbol.kind in {"function", "method"}
    && IsTestFilePath(node.symbol.path) && IsTestQualname(node.symbol.qualname)
  }

  predicate Reported(db: Snapshot, root: string, onlyTests: bool, id: string) {
    id != root && (onlyTests ==> IsTestNode(Render(db, id)))
  }

  function ReportedIds(db: Snapshot, root: string, onlyTests: bool, ids: seq<string>): seq<string> {
    if ids == [] then []
    else
      var last := ids[|ids| - 1];
      ReportedIds(db, root, onlyTests, ids[..|ids| - 1]) + (if Reported(db, root, onlyTests, last) then [last] else [])
  }

  function CountTier(ids: seq<string>, via: map<string, Edge>, tier: Confidence): nat {
    if ids == [] then 0
    else
      var last := ids[|ids| - 1];
      CountTier(ids[..|ids| - 1], via, tier) + (if last in via && via[last].content.confidence == tier then 1 else 0)
  }

  /** Per reported symbol one entry with the edge kind that discovered it, and one count in its tier. */
  ghost predicate Report(db: Snapshot, reported: seq<string>, via: map<string, Edge>, affected: seq<Affected>,
                         summary: Summary) {
    && |affected| == |reported|
    && (forall i :: 0 <= i < |affected| ==>
          reported[i] in via && affected[i] == Affected(Render(db, reported[i]), via[reported[i]].key.predicate_))
    && summary == Summary(CountTier(reported, via, EXTRACTED), CountTier(reported, via, INFERRED),
                          CountTier(reported, via, AMBIGUOUS), |affected|)
    && summary.extracted + summary.inferred + summary.ambiguous == summary.total
  }

  function Bump(s: Summary, tier: Confidence): Summary {
    match tier
    case EXTRACTED => s.(extracted := s.extracted + 1, total := s.total + 1)
    case INFERRED => s.(inferred := s.inferred + 1, total := s.total + 1)
    case AMBIGUOUS => s.(ambiguous := s.ambiguous + 1, total := s.total + 1)
  }

  lemma ReportPush(db: Snapshot, reported: seq<string>, via: map<string, Edge>, affected: seq<Affected>,
                   summary: Summary, id: string)
    requires Report(db, reported, via, affected, summary) && id in via
    ensures Report(db, reported + [id], via, affected + [Affected(Render(db, id), via[id].key.predicate_)],
                   Bump(summary, via[id].content.confidence))
  {
    assert (reported + [id])[..|reported|] == reported;
  }

  method Summarize(db: Snapshot, root: string, onlyTests: bool, ids: seq<string>, via: map<string, Edge>)
    returns (affected: seq<Affected>, summary: Summary)
    requires forall n :: n in ids && n != root ==> n in via
    ensures Report(db, ReportedIds(db, root, onlyTests, ids), via, affected, summary)
  {
    hide Report, Bump, Render, IsTestNode;
    affected, summary := [], Summary(0, 0, 0, 0);
    NothingReported(db, via);
    for i := 0 to |ids|
      invariant Report(db, ReportedIds(db, root, onlyTests, ids[..i]), via, affected, summary)
    {
      assert ids[..i + 1][..i] == ids[..i];
      var id := ids[i];
      if id != root && (!onlyTests || IsTestNode(Render(db, id))) {
        ReportPush(db, ReportedIds(db, root, onlyTests, ids[..i]), via, affected, summary, id);
        affected := affected + [Affected(Render(db, id), via[id].key.predicate_)];
        summary := Bump(summary, via[id].content.confidence);
      } else {
        assert ReportedIds(db, root, onlyTests, ids[..i + 1]) == ReportedIds(db, root, onlyTests, ids[..i]);
      }
    }
    assert ids[..|ids|] == ids;
  }

  lemma NothingReported(db: Snapshot, via: map<string, Edge>)
    ensures Report(db, [], via, [], Summary(0, 0, 0, 0))
  {
  }

  datatype RadiusResult = RadiusResult(root: string, affected: seq<Affected>, summary: Summary, nodeCap: int,
                                       depthClamp: int, truncated: bool)

  /** The contract of both tools over the ids traversed and the edges that discovered them. */
  ghost predicate AnswersWith(db: Snapshot, root: string, predicates: set<string>, onlyTests: bool, cap: nat,
                              clamp: nat, r: RadiusResult, ids: seq<string>, via: map<string, Edge>) {
    && UpstreamAnswer(db, root, predicates, cap, clamp, ids, via, r.truncated)
    && UpstreamMeans(db, root, predicates, cap, clamp, ids, via, r.truncated)
    && Report(db, ReportedIds(db, root, onlyTests, ids), via, r.affected, r.summary)
  }

  /** What a caller of either tool gets, errors included. */
  ghost predicate Answers(db: Snapshot, root: string, predicates: set<string>, onlyTests: bool, nodeCap: int,
                          depthClamp: int, r: Result<RadiusResult, ToolError>) {
    && (r == Failure(InvalidArgument) <==> nodeCap <= 0 || depthClamp <= 0)
    && (r == Failure(SymbolNotFound) <==> nodeCap > 0 && depthClamp > 0 && root !in db.symbols)
    && (r.Success? ==>
          && r.value.root == root && r.value.nodeCap == nodeCap && r.value.depthClamp == depthClamp
          && exists ids, via :: AnswersWith(db, root, predicates, onlyTests, nodeCap, depthClamp, r.value, ids, via))
  }

  method ImpactAnalysis(db: Snapshot, root: string, nodeCap: int, depthClamp: int)
    returns (r: Result<RadiusResult, ToolError>)
    ensures Answers(db, root, {"calls", "imports", "overrides"}, false, nodeCap, depthClamp, r)
  {
    r := Radius(db, root, IMPACT_PREDICATES, false, nodeCap, depthClamp);
  }

  method AffectedTests(db: Snapshot, root: string, nodeCap: int, depthClamp: int)
    returns (r: Result<RadiusResult, ToolError>)
    ensures Answers(db, root, {"calls", "overrides"}, true, nodeCap, depthClamp, r)
  {
    r := Radius(db, root, TEST_PREDICATES, true, nodeCap, depthClamp);
  }

  method Radius(db: Snapshot, root: string, predicates: set<string>, onlyTests: bool, nodeCap: int, depthClamp: int)
    returns (r: Result<RadiusResult, ToolError>)
    ensures Answers(db, root, predicates, onlyTests, nodeCap, depthClamp, r)
  {
    hide UpstreamAnswer, UpstreamMeans, Report, ReportedIds;
    if nodeCap <= 0 { return Failure(InvalidArgument); }
    if depthClamp <= 0 { return Failure(InvalidArgument); }
    if root !in db.symbols { return Failure(SymbolNotFound); }
    var nodes, via, truncated := TraverseUpstream(db, root, predicates, nodeCap, depthClamp);
    UpstreamVia(db, root, predicates, nodeCap, depthClamp, nodes, via, truncated);
    var affected, summary := Summarize(db, root, onlyTests, nodes, via);
    var found := RadiusResult(root, affected, summary, nodeCap, depthClamp, truncated);
    assert AnswersWith(db, root, predicates, onlyTests, nodeCap, depthClamp, found, nodes, via);
    return Success(found);
  }

  lemma UpstreamVia(db: Snapshot, root: string, predicates: set<string>, cap: nat, clamp: nat,
                    ids: seq<string>, via: map<string, Edge>, truncated: bool)
    requires UpstreamAnswer(db, root, predicates, cap, clamp, ids, via, truncated)
    ensures forall n :: n in ids && n != root ==> n in via
  {
  }

  ghost function TierOf(ids: seq<string>, via: map<string, Edge>, tier: Confidence): set<string> {
    set id | id in ids && id in via && via[id].content.confidence == tier
  }

  /** A tier counts the reported symbols that a relation of that confidence discovered. */
  lemma {:induction false} TierSize(ids: seq<string>, via: map<string, Edge>, tier: Confidence)
    requires Distinct(ids)
    ensures CountTier(ids, via, tier) == |TierOf(ids, via, tier)|
  {
    if ids != [] {
      var before, last := ids[..|ids| - 1], ids[|ids| - 1];
      TierSize(before, via, tier);
      TierNext(before, last, via, tier);
      assert ids == before + [last];
      assert last !in before;
      hide TierOf;
    }
  }

  lemma TierNext(before: seq<string>, last: string, via: map<string, Edge>, tier: Confidence)
    requires last !in before
    ensures last !in TierOf(before, via, tier)
    ensures TierOf(before + [last], via, tier) ==
            TierOf(before, via, tier) + if last in via && via[last].content.confidence == tier then {last} else {}
  {
  }

  // ----- the two tools together -----

  lemma MorePredicatesReachMore(db: Snapshot, few: set<string>, many: set<string>, root: string, n: string)
    requires few <= many && Reached(EdgesAt(db, false, few), FarEnd(false), root, n)
    ensures Reached(EdgesAt(db, false, many), FarEnd(false), root, n)
  {
    hide EdgesAt, Links, FarEnd;
    var p :| Path(EdgesAt(db, false, few), FarEnd(false), p, root, n);
    forall i {:trigger p[i]} | 0 <= i < |p| - 1 ensures Links(EdgesAt(db, false, many), FarEnd(false), p[i], p[i + 1]) {
      LinksGrow(db, few, many, p[i], p[i + 1]);
    }
    assert Path(EdgesAt(db, false, many), FarEnd(false), p, root, n);
  }

  lemma LinksGrow(db: Snapshot, few: set<string>, many: set<string>, m: string, n: string)
    requires few <= many && Links(EdgesAt(db, false, few), FarEnd(false), m, n)
    ensures Links(EdgesAt(db, false, many), FarEnd(false), m, n)
  {
    hide EdgesAt, FarEnd;
    FarMembers(FarEnd(false), EdgesAt(db, false, few)(m), n);
    FarMembers(FarEnd(false), EdgesAt(db, false, many)(m), n);
    EdgesAtNode(db, false, few, m);
    EdgesAtNode(db, false, many, m);
  }

  lemma {:induction false} ReportedMembers(db: Snapshot, root: string, onlyTests: bool, ids: seq<string>, id: string)
    ensures id in ReportedIds(db, root, onlyTests, ids) <==> id in ids && Reported(db, root, onlyTests, id)
  {
    if ids != [] {
      ReportedMembers(db, root, onlyTests, ids[..|ids| - 1], id);
      assert ids == ids[..|ids| - 1] + [ids[|ids| - 1]];
    }
  }

  ghost predicate Lists(affected: seq<Affected>, node: Node) {
    exists a :: a in affected && a.node == node
  }

  lemma ReportLists(db: Snapshot, reported: seq<string>, via: map<string, Edge>, affected: seq<Affected>,
                    summary: Summary, id: string)
    requires Report(db, reported, via, affected, summary) && id in reported
    ensures Lists(affected, Render(db, id))
  {
    var j :| 0 <= j < |reported| && reported[j] == id;
    assert affected[j].node == Render(db, id);
  }

  /** Something a smaller traversal lists is listed by a complete larger one. */
  lemma CompleteListsMore(db: Snapshot, root: string, few: set<string>, many: set<string>, capF: nat, clampF: nat,
                          capM: nat, clampM: nat, idsF: seq<string>, viaF: map<string, Edge>, cutF: bool,
                          idsM: seq<string>, viaM: map<string, Edge>, id: string)
    requires few <= many && id in idsF
    requires UpstreamAnswer(db, root, few, capF, clampF, idsF, viaF, cutF)
    requires UpstreamAnswer(db, root, many, capM, clampM, idsM, viaM, false)
    ensures id in idsM
  {
    hide EdgesAt, FarEnd, Within, Reached, Walk, NearestFirst, Nodes, Discovered;
    WithinIsReached(EdgesAt(db, false, few), FarEnd(false), root, id, clampF);
    MorePredicatesReachMore(db, few, many, root, id);
  }

  /** What the tools report: every other symbol, or those of them that pytest collects as tests. */
  ghost predicate Wanted(db: Snapshot, root: string, onlyTests: bool, id: string) {
    && id != root
    && (onlyTests ==>
          && id in db.symbols && (db.symbols[id].kind == "function" || db.symbols[id].kind == "method")
          && IsTestFilePath(db.symbols[id].path) && IsTestQualname(db.symbols[id].qualname))
  }

  lemma ReportedIsWanted(db: Snapshot, root: string, onlyTests: bool, id: string)
    ensures Reported(db, root, onlyTests, id) <==> Wanted(db, root, onlyTests, id)
  {
  }

  /** The entry is that of a symbol that depends on the root, under the relation that discovered it. */
  ghost predicate Justified(db: Snapshot, root: string, predicates: set<string>, onlyTests: bool, ids: seq<string>,
                            a: Affected) {
    var id := a.node.id;
    && Wanted(db, root, onlyTests, id) && Related(db, false, predicates, root, id)
    && a.node == (if id in db.symbols then Resolved(id, db.symbols[id]) else Unresolved(id))
    && exists e :: DiscoveredBy(db, false, predicates, root, ids, e, id) && a.discoveryPredicate == e.key.predicate_
  }

  /**
   Every reported symbol depends on the root, by a chain of live relations from source to target;
   and when the answer is not truncated, everything that does, and that the tool reports at all,
   is reported.
   */
  lemma ReportIsReachable(db: Snapshot, root: string, predicates: set<string>, onlyTests: bool, cap: nat, clamp: nat,
                          r: RadiusResult, ids: seq<string>, via: map<string, Edge>)
    requires AnswersWith(db, root, predicates, onlyTests, cap, clamp, r, ids, via)
    ensures forall a :: a in r.affected ==> Justified(db, root, predicates, onlyTests, ids, a)
    ensures !r.truncated ==> forall id ::
              Related(db, false, predicates, root, id) && Wanted(db, root, onlyTests, id) ==>
                Lists(r.affected, Render(db, id))
  {
    hide UpstreamAnswer, Listing, DiscoveredBy, Related, Connected, ReportedIds, Lists, Reported, Wanted;
    var reported := ReportedIds(db, root, onlyTests, ids);
    forall a | a in r.affected ensures Justified(db, root, predicates, onlyTests, ids, a) {
      var i :| 0 <= i < |r.affected| && r.affected[i] == a;
      ReportedMembers(db, root, onlyTests, ids, reported[i]);
      ReportedIsWanted(db, root, onlyTests, reported[i]);
      ListedIsRelated(db, root, predicates, cap, clamp, ids, reported[i]);
    }
    if !r.truncated {
      forall id | Related(db, false, predicates, root, id) && Wanted(db, root, onlyTests, id)
        ensures Lists(r.affected, Render(db, id))
      {
        ReportedMembers(db, root, onlyTests, ids, id);
        ReportedIsWanted(db, root, onlyTests, id);
        ReportLists(db, reported, via, r.affected, r.summary, id);
      }
    }
  }

  lemma ListedIsRelated(db: Snapshot, root: string, predicates: set<string>, cap: nat, clamp: nat, ids: seq<string>,
                        id: string)
    requires Listing(db, false, predicates, root, cap, clamp, ids) && id in ids
    ensures Related(db, false, predicates, root, id)
  {
    hide Chain;
    assert Connected(db, false, predicates, root, id, clamp);
  }

  /**
   Whenever `impact_analysis` is not truncated, every test `affected_tests` returns for the same
   root, under whatever caps, is among its affected symbols.
   */
  lemma ImpactCoversTests(db: Snapshot, root: string, capI: int, clampI: int, capT: int, clampT: int,
                          impact: Result<RadiusResult, ToolError>, tests: Result<RadiusResult, ToolError>)
    requires Answers(db, root, IMPACT_PREDICATES, false, capI, clampI, impact)
    requires Answers(db, root, TEST_PREDICATES, true, capT, clampT, tests)
    requires impact.Success? && tests.Success? && !impact.value.truncated
    ensures forall t :: t in tests.value.affected ==> Lists(impact.value.affected, t.node)
  {
    hide AnswersWith, Lists;
    var idsI, viaI :| AnswersWith(db, root, IMPACT_PREDICATES, false, capI, clampI, impact.value, idsI, viaI);
    var idsT, viaT :| AnswersWith(db, root, TEST_PREDICATES, true, capT, clampT, tests.value, idsT, viaT);
    ImpactListsTests(db, root, capI, clampI, capT, clampT, impact.value, idsI, viaI, tests.value, idsT, viaT);
  }

  lemma ImpactListsTests(db: Snapshot, root: string, capI: nat, clampI: nat, capT: nat, clampT: nat,
                         impact: RadiusResult, idsI: seq<string>, viaI: map<string, Edge>,
                         tests: RadiusResult, idsT: seq<string>, viaT: map<string, Edge>)
    requires AnswersWith(db, root, IMPACT_PREDICATES, false, capI, clampI, impact, idsI, viaI)
    requires AnswersWith(db, root, TEST_PREDICATES, true, capT, clampT, tests, idsT, viaT)
    requires !impact.truncated
    ensures forall t :: t in tests.affected ==> Lists(impact.affected, t.node)
  {
    hide UpstreamAnswer, UpstreamMeans, ReportedIds, Lists, Render, IsTestNode;
    forall t | t in tests.affected ensures Lists(impact.affected, t.node) {
      var reported := ReportedIds(db, root, true, idsT);
      var i :| 0 <= i < |reported| && t == tests.affected[i];
      ReportedMembers(db, root, true, idsT, reported[i]);
      ReportedMembers(db, root, false, idsI, reported[i]);
      CompleteListsMore(db, root, TEST_PREDICATES, IMPACT_PREDICATES, capT, clampT, capI, clampI,
                        idsT, viaT, tests.truncated, idsI, viaI, reported[i]);
      ReportLists(db, ReportedIds(db, root, false, idsI), viaI, impact.affected, impact.summary, reported[i]);
    }
  }
}
