/** The live relations as a graph: which of them leave a node, in what order, and what chains of them lead to. */
module RelationGraph {
  import opened Wrappers
  import opened Ordering
  import opened Tuples
  import opened Facts
  import opened Indexer
  import opened Traversal
  import opened BoundedWalk
  import opened WalkResults
  import opened DiscoveryOrder

  type Edge = Claim<RelationKey, RelationContent>

  /** What a tool reads: the live symbols, and the live relations in whatever order the store lists them. */
  datatype Snapshot = Snapshot(symbols: Symbols, relations: seq<Edge>, generation: nat)

  // ----- the edges at a node -----

  function NearEnd(downstream: bool, e: Edge): string {
    if downstream then e.key.source else e.key.target
  }

  function FarEnd(downstream: bool): Edge -> string {
    (e: Edge) => if downstream then e.key.target else e.key.source
  }

  function Matching(relations: seq<Edge>, downstream: bool, predicates: set<string>, n: string): seq<Edge> {
    if relations == [] then []
    else
      var last := relations[|relations| - 1];
      Matching(relations[..|relations| - 1], downstream, predicates, n)
      + (if NearEnd(downstream, last) == n && last.key.predicate_ in predicates then [last] else [])
  }

  function OrderingKey(e: Edge): Tuple {
    [Text(e.key.siteFile), Num(e.key.siteLine), Num(e.key.siteCol), Text(e.key.source), Text(e.key.target)]
  }

  function EdgeLe(): (Edge, Edge) -> bool {
    (a, b) => TupleLe(OrderingKey(a), OrderingKey(b))
  }

  /** A node's edges with the wanted predicates, in the order they are followed. */
  function EdgesAt(db: Snapshot, downstream: bool, predicates: set<string>): string -> seq<Edge> {
    (n: string) => Sort(Matching(db.relations, downstream, predicates, n), EdgeLe())
  }

  lemma {:induction false} MatchingMembers(relations: seq<Edge>, downstream: bool, predicates: set<string>, n: string,
                                           e: Edge)
    ensures e in Matching(relations, downstream, predicates, n) <==>
            e in relations && NearEnd(downstream, e) == n && e.key.predicate_ in predicates
  {
    if relations != [] {
      var before, last := relations[..|relations| - 1], relations[|relations| - 1];
      MatchingMembers(before, downstream, predicates, n, e);
      assert relations == before + [last];
    }
  }

  /** The relation leads from one symbol to the other: downstream from source to target, upstream back. */
  ghost predicate LeadsTo(downstream: bool, e: Edge, a: string, b: string) {
    if downstream then e.key.source == a && e.key.target == b else e.key.target == a && e.key.source == b
  }

  /** By file, line and column of the site, then by source and target. */
  ghost predicate SiteOrder(a: RelationKey, b: RelationKey) {
    || StrLess(a.siteFile, b.siteFile)
    || (a.siteFile == b.siteFile &&
        (|| a.siteLine < b.siteLine
         || (a.siteLine == b.siteLine &&
             (|| a.siteCol < b.siteCol
              || (a.siteCol == b.siteCol &&
                  (StrLess(a.source, b.source) || (a.source == b.source && StrLe(a.target, b.target))))))))
  }

  lemma OrderingKeyOrders(a: Edge, b: Edge)
    ensures TupleLe(OrderingKey(a), OrderingKey(b)) <==> SiteOrder(a.key, b.key)
  {
    var k, l := a.key, b.key;
    var a5, b5: Tuple := [Text(k.target)], [Text(l.target)];
    var a4, b4 := [Text(k.source)] + a5, [Text(l.source)] + b5;
    var a3, b3 := [Num(k.siteCol)] + a4, [Num(l.siteCol)] + b4;
    var a2, b2 := [Num(k.siteLine)] + a3, [Num(l.siteLine)] + b3;
    assert OrderingKey(a) == [Text(k.siteFile)] + a2 && OrderingKey(b) == [Text(l.siteFile)] + b2;
    TupleLeStep(Text(k.siteFile), a2, Text(l.siteFile), b2);
    TupleLeStep(Num(k.siteLine), a3, Num(l.siteLine), b3);
    TupleLeStep(Num(k.siteCol), a4, Num(l.siteCol), b4);
    TupleLeStep(Text(k.source), a5, Text(l.source), b5);
    TupleLeStep(Text(k.target), [], Text(l.target), []);
    assert a5 == [Text(k.target)] + [] && b5 == [Text(l.target)] + [];
    StrLeTotal(k.target, k.target);
    hide TupleLe, StrLe, OrderingKey;
  }

  /** They are exactly the live relations at that end with a wanted predicate, ordered by site. */
  lemma EdgesAtNode(db: Snapshot, downstream: bool, predicates: set<string>, n: string)
    ensures forall e :: e in EdgesAt(db, downstream, predicates)(n) <==>
              && e in db.relations && e.key.predicate_ in predicates
              && n == if downstream then e.key.source else e.key.target
    ensures var es := EdgesAt(db, downstream, predicates)(n);
      forall i, j :: 0 <= i < j < |es| ==> SiteOrder(es[i].key, es[j].key)
  {
    var found := Matching(db.relations, downstream, predicates, n);
    SortPermutes(found, EdgeLe());
    forall e
      ensures e in found <==> e in db.relations && NearEnd(downstream, e) == n && e.key.predicate_ in predicates
    {
      MatchingMembers(db.relations, downstream, predicates, n, e);
    }
    EdgeLeIsPreorder();
    SortOrders(found, EdgeLe());
    var es := EdgesAt(db, downstream, predicates)(n);
    forall i, j | 0 <= i < j < |es| ensures SiteOrder(es[i].key, es[j].key) {
      assert EdgeLe()(es[i], es[j]);
      OrderingKeyOrders(es[i], es[j]);
    }
  }

  lemma EdgeLeIsPreorder()
    ensures TotalPreorder(EdgeLe())
  {
    forall a, b ensures EdgeLe()(a, b) || EdgeLe()(b, a) { TupleLeTotal(OrderingKey(a), OrderingKey(b)); }
    forall a, b, c | EdgeLe()(a, b) && EdgeLe()(b, c) ensures EdgeLe()(a, c) {
      TupleLeTransitive(OrderingKey(a), OrderingKey(b), OrderingKey(c));
    }
  }

  // ----- chains of relations -----

  /** Relations with wanted predicates, each leading on from where the one before led, from the root to `n`. */
  ghost predicate Chain(db: Snapshot, downstream: bool, predicates: set<string>, p: seq<Edge>, root: string,
                        n: string) {
    if p == [] then n == root
    else
      var last := p[|p| - 1];
      && last in db.relations && last.key.predicate_ in predicates
      && exists m :: LeadsTo(downstream, last, m, n) && Chain(db, downstream, predicates, p[..|p| - 1], root, m)
  }

  ghost predicate Connected(db: Snapshot, downstream: bool, predicates: set<string>, root: string, n: string, k: nat) {
    exists p :: Chain(db, downstream, predicates, p, root, n) && |p| <= k
  }

  /** Some chain of relations leads there. Upstream: the symbol depends on the root. */
  ghost predicate Related(db: Snapshot, downstream: bool, predicates: set<string>, root: string, n: string) {
    exists p :: Chain(db, downstream, predicates, p, root, n)
  }

  ghost predicate Joined(db: Snapshot, downstream: bool, predicates: set<string>, m: string, n: string) {
    exists e :: e in db.relations && e.key.predicate_ in predicates && LeadsTo(downstream, e, m, n)
  }

  lemma LinksAreJoined(db: Snapshot, downstream: bool, predicates: set<string>, m: string, n: string)
    ensures Links(EdgesAt(db, downstream, predicates), FarEnd(downstream), m, n) <==>
            Joined(db, downstream, predicates, m, n)
  {
    FarMembers(FarEnd(downstream), EdgesAt(db, downstream, predicates)(m), n);
    EdgesAtNode(db, downstream, predicates, m);
    hide EdgesAt;
  }

  lemma ChainNext(db: Snapshot, downstream: bool, predicates: set<string>, root: string, n: string, k: nat)
    ensures Connected(db, downstream, predicates, root, n, k + 1) <==>
            || Connected(db, downstream, predicates, root, n, k)
            || exists m :: Connected(db, downstream, predicates, root, m, k) && Joined(db, downstream, predicates, m, n)
  {
    hide LeadsTo;
    if Connected(db, downstream, predicates, root, n, k + 1) {
      var p :| Chain(db, downstream, predicates, p, root, n) && |p| <= k + 1;
      if p != [] {
        var m :| LeadsTo(downstream, p[|p| - 1], m, n)
                 && Chain(db, downstream, predicates, p[..|p| - 1], root, m);
        assert Connected(db, downstream, predicates, root, m, k);
      }
    }
    if m :| Connected(db, downstream, predicates, root, m, k) && Joined(db, downstream, predicates, m, n) {
      var p :| Chain(db, downstream, predicates, p, root, m) && |p| <= k;
      var e :| e in db.relations && e.key.predicate_ in predicates && LeadsTo(downstream, e, m, n);
      assert (p + [e])[..|p|] == p;
      assert Chain(db, downstream, predicates, p + [e], root, n);
    }
  }

  lemma ChainStart(db: Snapshot, downstream: bool, predicates: set<string>, root: string, n: string)
    ensures Connected(db, downstream, predicates, root, n, 0) <==> n == root
  {
    assert Chain(db, downstream, predicates, [], root, root);
  }

  /** The walk's paths are the chains of relations, edge for relation. */
  lemma {:induction false} WithinIsConnected(db: Snapshot, downstream: bool, predicates: set<string>, root: string,
                                             n: string, k: nat)
    ensures Within(EdgesAt(db, downstream, predicates), FarEnd(downstream), root, n, k) <==>
            Connected(db, downstream, predicates, root, n, k)
    decreases k
  {
    hide *;
    var out, far := EdgesAt(db, downstream, predicates), FarEnd(downstream);
    if k == 0 {
      WithinZero(out, far, root, n);
      ChainStart(db, downstream, predicates, root, n);
    } else {
      WithinNext(out, far, root, n, k - 1);
      ChainNext(db, downstream, predicates, root, n, k - 1);
      WithinIsConnected(db, downstream, predicates, root, n, k - 1);
      if m :| Within(out, far, root, m, k - 1) && Links(out, far, m, n) {
        WithinIsConnected(db, downstream, predicates, root, m, k - 1);
        LinksAreJoined(db, downstream, predicates, m, n);
      }
      if m :| Connected(db, downstream, predicates, root, m, k - 1) && Joined(db, downstream, predicates, m, n) {
        WithinIsConnected(db, downstream, predicates, root, m, k - 1);
        LinksAreJoined(db, downstream, predicates, m, n);
      }
    }
  }

  lemma ReachedIsRelated(db: Snapshot, downstream: bool, predicates: set<string>, root: string, n: string)
    ensures Reached(EdgesAt(db, downstream, predicates), FarEnd(downstream), root, n) <==>
            Related(db, downstream, predicates, root, n)
  {
    var out, far := EdgesAt(db, downstream, predicates), FarEnd(downstream);
    hide EdgesAt, FarEnd, Chain;
    if Reached(out, far, root, n) {
      var p :| Path(out, far, p, root, n);
      assert Within(out, far, root, n, |p|);
      WithinIsConnected(db, downstream, predicates, root, n, |p|);
    }
    if Related(db, downstream, predicates, root, n) {
      var p :| Chain(db, downstream, predicates, p, root, n);
      assert Connected(db, downstream, predicates, root, n, |p|);
      WithinIsConnected(db, downstream, predicates, root, n, |p|);
    }
  }

  // ----- answers, told by chains of relations -----

  /** The ids are distinct, start at the root, stay within the cap, and come nearest first. */
  ghost predicate Listing(db: Snapshot, downstream: bool, predicates: set<string>, root: string, cap: nat, clamp: nat,
                          ids: seq<string>) {
    && Distinct(ids) && 0 < |ids| <= cap && ids[0] == root
    && (forall n :: n in ids ==> Connected(db, downstream, predicates, root, n, clamp))
    && (|ids| < cap ==> forall n :: Connected(db, downstream, predicates, root, n, clamp) ==> n in ids)
    && (forall i, j, k: nat {:trigger Connected(db, downstream, predicates, root, ids[i], k), ids[j]} ::
          0 <= i < j < |ids| && Connected(db, downstream, predicates, root, ids[j], k) ==>
            Connected(db, downstream, predicates, root, ids[i], k))
  }

  /** Everything some chain of relations leads to is listed. */
  ghost predicate AllRelatedListed(db: Snapshot, downstream: bool, predicates: set<string>, root: string,
                                   ids: seq<string>) {
    forall n :: Related(db, downstream, predicates, root, n) ==> n in ids
  }

  lemma ListingOf(db: Snapshot, downstream: bool, predicates: set<string>, root: string, cap: nat, clamp: nat,
                  ids: seq<string>)
    requires var out, far := EdgesAt(db, downstream, predicates), FarEnd(downstream);
      && Distinct(ids) && 0 < |ids| <= cap && ids[0] == root && NearestFirst(out, far, root, ids)
      && (forall n :: n in ids ==> Within(out, far, root, n, clamp))
      && (|ids| < cap ==> forall n :: n in ids <==> Within(out, far, root, n, clamp))
    ensures Listing(db, downstream, predicates, root, cap, clamp, ids)
  {
    hide EdgesAt, FarEnd, Within, Connected;
    forall n, k: nat
      ensures Within(EdgesAt(db, downstream, predicates), FarEnd(downstream), root, n, k) <==>
              Connected(db, downstream, predicates, root, n, k)
    {
      WithinIsConnected(db, downstream, predicates, root, n, k);
    }
  }

  lemma ListedAlike(db: Snapshot, downstream: bool, predicates: set<string>, root: string, ids: seq<string>)
    ensures AllListed(EdgesAt(db, downstream, predicates), FarEnd(downstream), root, ids) <==>
            AllRelatedListed(db, downstream, predicates, root, ids)
  {
    hide EdgesAt, FarEnd, Reached, Related;
    forall n ensures Reached(EdgesAt(db, downstream, predicates), FarEnd(downstream), root, n) <==>
                       Related(db, downstream, predicates, root, n) {
      ReachedIsRelated(db, downstream, predicates, root, n);
    }
  }

  /** A live relation with a wanted predicate between two listed symbols. */
  ghost predicate Between(db: Snapshot, predicates: set<string>, ids: seq<string>, e: Edge) {
    e in db.relations && e.key.predicate_ in predicates && e.key.source in ids && e.key.target in ids
  }

  lemma AmongIsBetween(db: Snapshot, downstream: bool, predicates: set<string>, ids: seq<string>, e: Edge)
    ensures FromAny(EdgesAt(db, downstream, predicates), ids, e) && FarEnd(downstream)(e) in ids <==>
            Between(db, predicates, ids, e)
  {
    var out := EdgesAt(db, downstream, predicates);
    if FromAny(out, ids, e) {
      var m :| m in ids && e in out(m);
      EdgesAtNode(db, downstream, predicates, m);
    }
    if Between(db, predicates, ids, e) {
      var m := if downstream then e.key.source else e.key.target;
      EdgesAtNode(db, downstream, predicates, m);
      assert m in ids && e in out(m);
    }
  }

  /** The symbol a relation is followed from lies nearer to the root than the clamp. */
  ghost predicate LeavesInner(db: Snapshot, downstream: bool, predicates: set<string>, root: string, clamp: nat,
                              e: Edge) {
    clamp > 0
    && Connected(db, downstream, predicates, root, if downstream then e.key.source else e.key.target, clamp - 1)
  }

  lemma FollowedIsBetween(db: Snapshot, downstream: bool, predicates: set<string>, root: string, clamp: nat,
                          ids: seq<string>, edges: seq<Edge>)
    requires EdgesFollowed(EdgesAt(db, downstream, predicates), FarEnd(downstream), root, clamp, ids, edges)
    ensures forall e :: e in edges <==>
              Between(db, predicates, ids, e) && LeavesInner(db, downstream, predicates, root, clamp, e)
  {
    var out, far := EdgesAt(db, downstream, predicates), FarEnd(downstream);
    forall e ensures e in edges <==>
        Between(db, predicates, ids, e) && LeavesInner(db, downstream, predicates, root, clamp, e) {
      var near := if downstream then e.key.source else e.key.target;
      forall m ensures e in out(m) <==> e in db.relations && e.key.predicate_ in predicates && m == near {
        EdgesAtNode(db, downstream, predicates, m);
      }
      if clamp > 0 { WithinIsConnected(db, downstream, predicates, root, near, clamp - 1); }
      EitherEnd(downstream, e);
      hide EdgesAt, FarEnd, Within, Connected;
      assert near in ids && Inner(out, far, root, clamp, near) && e in out(near) <==>
             exists m :: m in ids && Inner(out, far, root, clamp, m) && e in out(m);
    }
  }

  lemma EitherEnd(downstream: bool, e: Edge)
    ensures FarEnd(downstream)(e) == if downstream then e.key.target else e.key.source
  {
  }

  /** The relation that discovers a symbol leads to it from a symbol listed before, exactly one relation nearer. */
  ghost predicate DiscoveredBy(db: Snapshot, downstream: bool, predicates: set<string>, root: string, ids: seq<string>,
                               e: Edge, n: string) {
    && e in db.relations && e.key.predicate_ in predicates
    && exists i, j :: 0 <= i < j < |ids| && ids[j] == n && LeadsTo(downstream, e, ids[i], n)
         && OneFurther(db, downstream, predicates, root, ids[i], n)
  }

  ghost predicate OneFurther(db: Snapshot, downstream: bool, predicates: set<string>, root: string, m: string,
                             n: string) {
    forall k: nat :: Connected(db, downstream, predicates, root, n, k + 1) <==>
                     Connected(db, downstream, predicates, root, m, k)
  }

  lemma FoundIsDiscovered(db: Snapshot, downstream: bool, predicates: set<string>, root: string, ids: seq<string>,
                          e: Edge, n: string)
    requires FoundFrom(EdgesAt(db, downstream, predicates), FarEnd(downstream), root, ids, e, n)
    ensures DiscoveredBy(db, downstream, predicates, root, ids, e, n)
  {
    var out, far := EdgesAt(db, downstream, predicates), FarEnd(downstream);
    var i: nat, j: nat :| Precedes(out, far, root, ids, e, n, i, j);
    EdgesAtNode(db, downstream, predicates, ids[i]);
    assert LeadsTo(downstream, e, ids[i], n);
    hide EdgesAt, FarEnd, LeadsTo, Within, Connected;
    forall k: nat ensures Connected(db, downstream, predicates, root, n, k + 1) <==>
                            Connected(db, downstream, predicates, root, ids[i], k) {
      WithinIsConnected(db, downstream, predicates, root, n, k + 1);
      WithinIsConnected(db, downstream, predicates, root, ids[i], k);
    }
  }

  // ----- the order of discovery -----

  /** The symbol the first is followed from sorts first; relations at one symbol are followed by site. */
  ghost predicate FollowedBefore(downstream: bool, e: Edge, f: Edge) {
    var a := if downstream then e.key.source else e.key.target;
    var b := if downstream then f.key.source else f.key.target;
    StrLe(a, b) && (a == b ==> SiteOrder(e.key, f.key))
  }

  ghost predicate SameDistance(db: Snapshot, downstream: bool, predicates: set<string>, root: string, m: string,
                               n: string) {
    forall k: nat :: Connected(db, downstream, predicates, root, m, k) <==>
                     Connected(db, downstream, predicates, root, n, k)
  }

  /** The relation could have discovered the symbol: it leads to it from exactly one relation nearer. */
  ghost predicate CouldDiscover(db: Snapshot, downstream: bool, predicates: set<string>, root: string, f: Edge,
                                n: string) {
    && f in db.relations && f.key.predicate_ in predicates
    && LeadsTo(downstream, f, if downstream then f.key.source else f.key.target, n)
    && OneFurther(db, downstream, predicates, root, if downstream then f.key.source else f.key.target, n)
  }

  /**
   Each listed symbol but the root is discovered by the first of the relations that could discover
   it, and symbols of one distance are listed in the order of the relations that discover them.
   */
  ghost predicate Discovery(db: Snapshot, downstream: bool, predicates: set<string>, root: string, ids: seq<string>,
                            via: map<string, Edge>) {
    && (forall n :: n in via <==> n in ids && n != root)
    && (forall n :: n in via ==> DiscoveredBy(db, downstream, predicates, root, ids, via[n], n))
    && (forall n, f :: n in via && CouldDiscover(db, downstream, predicates, root, f, n) ==>
          FollowedBefore(downstream, via[n], f))
    && (forall i, j {:trigger ids[i], ids[j]} ::
          0 <= i < j < |ids| && ids[i] in via && ids[j] in via
          && SameDistance(db, downstream, predicates, root, ids[i], ids[j]) ==>
            FollowedBefore(downstream, via[ids[i]], via[ids[j]]))
  }

  lemma NotLaterMeans(db: Snapshot, downstream: bool, predicates: set<string>, e: Edge, f: Edge)
    requires NotLater(EdgesAt(db, downstream, predicates), StrLe, e, f)
    ensures FollowedBefore(downstream, e, f)
  {
    var out := EdgesAt(db, downstream, predicates);
    var m, n :| Follows(out, StrLe, e, f, m, n);
    EdgesAtNode(db, downstream, predicates, m);
    EdgesAtNode(db, downstream, predicates, n);
    hide EdgesAt, SiteOrder;
    SiteOrderReflexive(e.key);
  }

  lemma SiteOrderReflexive(k: RelationKey)
    ensures SiteOrder(k, k)
  {
    StrLeTotal(k.target, k.target);
  }

  /** Both ways of telling how far a symbol is agree. */
  lemma DistancesAlike(db: Snapshot, downstream: bool, predicates: set<string>, root: string, n: string, d: nat)
    requires AtDistance(EdgesAt(db, downstream, predicates), FarEnd(downstream), root, n, d)
    ensures forall k: nat :: Connected(db, downstream, predicates, root, n, k) <==> d <= k
  {
    hide EdgesAt, FarEnd, Within, Connected;
    forall k: nat ensures Connected(db, downstream, predicates, root, n, k) <==> d <= k {
      WithinIsConnected(db, downstream, predicates, root, n, k);
    }
  }

  lemma ConnectedDistance(db: Snapshot, downstream: bool, predicates: set<string>, root: string, n: string, d: nat)
    requires forall k: nat :: Connected(db, downstream, predicates, root, n, k) <==> d <= k
    ensures AtDistance(EdgesAt(db, downstream, predicates), FarEnd(downstream), root, n, d)
  {
    hide EdgesAt, FarEnd, Within, Connected;
    forall k: nat
      ensures Within(EdgesAt(db, downstream, predicates), FarEnd(downstream), root, n, k) <==> d <= k
    {
      WithinIsConnected(db, downstream, predicates, root, n, k);
    }
  }

  /** A listed symbol other than the root lies at some distance within the clamp. */
  lemma DistanceOf(db: Snapshot, downstream: bool, predicates: set<string>, root: string, n: string, clamp: nat)
    returns (d: nat)
    requires Within(EdgesAt(db, downstream, predicates), FarEnd(downstream), root, n, clamp) && n != root
    ensures d < clamp && AtDistance(EdgesAt(db, downstream, predicates), FarEnd(downstream), root, n, d + 1)
    ensures forall k: nat :: Connected(db, downstream, predicates, root, n, k) <==> d + 1 <= k
  {
    hide *;
    var out, far := EdgesAt(db, downstream, predicates), FarEnd(downstream);
    var e := DistanceExists(out, far, root, n, clamp);
    DistanceMeans(out, far, root, n, e, 0);
    WithinZero(out, far, root, n);
    d := e - 1;
    DistancesAlike(db, downstream, predicates, root, n, e);
  }

  lemma FirstDiscovers(db: Snapshot, downstream: bool, predicates: set<string>, root: string, clamp: nat, n: string,
                       e: Edge, f: Edge)
    requires var out, far := EdgesAt(db, downstream, predicates), FarEnd(downstream);
      && Within(out, far, root, n, clamp) && n != root
      && FirstTo(far, Walk(out, far, StrLe, root, clamp).trace, n) == Some(e)
    requires CouldDiscover(db, downstream, predicates, root, f, n)
    ensures FollowedBefore(downstream, e, f)
  {
    var out, far := EdgesAt(db, downstream, predicates), FarEnd(downstream);
    var m := if downstream then f.key.source else f.key.target;
    EdgesAtNode(db, downstream, predicates, m);
    EitherEnd(downstream, f);
    assert f in out(m) && far(f) == n;
    var d := DistanceOf(db, downstream, predicates, root, n, clamp);
    hide EdgesAt, FarEnd, Within, Connected, Walk, FirstTo, FollowedBefore, LeadsTo, StrLe, AtDistance, TotalPreorder;
    ConnectedDistance(db, downstream, predicates, root, m, d);
    StrLeIsTotalPreorder();
    DiscoveredByFirst(out, far, StrLe, root, clamp, m, n, f, d);
    NotLaterMeans(db, downstream, predicates, e, f);
  }

  lemma ListedInOrder(db: Snapshot, downstream: bool, predicates: set<string>, root: string, clamp: nat,
                      ids: seq<string>, i: nat, j: nat, e: Edge, f: Edge)
    requires i < j < |ids| && ids[i] != root && ids[j] != root && ids[0] == root
    requires var out, far := EdgesAt(db, downstream, predicates), FarEnd(downstream);
      var full := Walk(out, far, StrLe, root, clamp).trace;
      && ids <= Nodes(far, root, full) && Within(out, far, root, ids[i], clamp) && Within(out, far, root, ids[j], clamp)
      && FirstTo(far, full, ids[i]) == Some(e) && FirstTo(far, full, ids[j]) == Some(f)
    requires SameDistance(db, downstream, predicates, root, ids[i], ids[j])
    ensures FollowedBefore(downstream, e, f)
  {
    hide EdgesAt, FarEnd, Within, Connected, Walk, FirstTo, Nodes, FollowedBefore, StrLe, AtDistance, TotalPreorder;
    var out, far := EdgesAt(db, downstream, predicates), FarEnd(downstream);
    var d := DistanceOf(db, downstream, predicates, root, ids[i], clamp);
    ConnectedDistance(db, downstream, predicates, root, ids[j], d + 1);
    StrLeIsTotalPreorder();
    DiscoveredInOrder(out, far, StrLe, root, clamp, i, j, d);
    NotLaterMeans(db, downstream, predicates, e, f);
  }

  lemma DiscoveryOf(db: Snapshot, downstream: bool, predicates: set<string>, root: string, clamp: nat,
                    ids: seq<string>, via: map<string, Edge>)
    requires var out, far := EdgesAt(db, downstream, predicates), FarEnd(downstream);
      && ids != [] && ids[0] == root && (forall n :: n in ids ==> Within(out, far, root, n, clamp))
      && ids <= Nodes(far, root, Walk(out, far, StrLe, root, clamp).trace)
      && Discovered(far, root, Walk(out, far, StrLe, root, clamp).trace, ids, via)
      && forall n :: n in via ==> FoundFrom(out, far, root, ids, via[n], n)
    ensures Discovery(db, downstream, predicates, root, ids, via)
  {
    hide EdgesAt, FarEnd, Within, Connected, Walk, FirstTo, Nodes, FollowedBefore, FoundFrom, DiscoveredBy,
      CouldDiscover, SameDistance;
    forall n | n in via ensures DiscoveredBy(db, downstream, predicates, root, ids, via[n], n) {
      FoundIsDiscovered(db, downstream, predicates, root, ids, via[n], n);
    }
    forall n, f | n in via && CouldDiscover(db, downstream, predicates, root, f, n)
      ensures FollowedBefore(downstream, via[n], f)
    {
      FirstDiscovers(db, downstream, predicates, root, clamp, n, via[n], f);
    }
    forall i, j {:trigger ids[i], ids[j]} | 0 <= i < j < |ids| && ids[i] in via && ids[j] in via
                                            && SameDistance(db, downstream, predicates, root, ids[i], ids[j])
      ensures FollowedBefore(downstream, via[ids[i]], via[ids[j]])
    {
      ListedInOrder(db, downstream, predicates, root, clamp, ids, i, j, via[ids[i]], via[ids[j]]);
    }
  }
}
