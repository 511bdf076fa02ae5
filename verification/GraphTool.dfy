/** The `graph` tool: the call or import graph around one symbol. */
module GraphTool {
  import opened Wrappers
  import opened Ordering
  import opened Facts
  import opened Indexer
  import opened Traversal
  import opened BoundedWalk
  import opened WalkResults
  import opened RelationGraph

  datatype ToolError = InvalidArgument | SymbolNotFound

  /** A node nobody defines is listed by its id alone. */
  datatype Node = Resolved(id: string, symbol: SymbolContent) | Unresolved(id: string)

  function Render(db: Snapshot, id: string): Node {
    if id in db.symbols then Resolved(id, db.symbols[id]) else Unresolved(id)
  }

  function RenderAll(db: Snapshot, ids: seq<string>): (nodes: seq<Node>)
    ensures |nodes| == |ids| && forall i :: 0 <= i < |ids| ==> nodes[i] == Render(db, ids[i])
  {
    seq(|ids|, i requires 0 <= i < |ids| => Render(db, ids[i]))
  }

  function Ids(nodes: seq<Node>): (ids: seq<string>)
    ensures |ids| == |nodes| && forall i :: 0 <= i < |ids| ==> ids[i] == nodes[i].id
  {
    seq(|nodes|, i requires 0 <= i < |nodes| => nodes[i].id)
  }

  // ----- the tool -----

  datatype GraphResult = GraphResult(nodes: seq<Node>, edges: seq<Edge>, nodeCap: int, depthClamp: int, truncated: bool)

  function PredicateOf(graphType: string): Option<string> {
    if graphType == "call" then Some("calls")
    else if graphType == "dependency" then Some("imports")
    else None
  }

  ghost predicate BadArguments(graphType: string, direction: string, nodeCap: int, depthClamp: int) {
    graphType !in {"call", "dependency"} || direction !in {"upstream", "downstream"} || nodeCap <= 0 || depthClamp <= 0
  }

  /**
   What a caller may rely on. `truncated` is exact: it is false if and only if every reachable
   node and every matching edge between the nodes is listed.
   */
  ghost predicate GraphAnswer(db: Snapshot, root: string, predicate_: string, downstream: bool, cap: nat, clamp: nat,
                              ids: seq<string>, edges: seq<Edge>, truncated: bool) {
    var out, far := EdgesAt(db, downstream, {predicate_}), FarEnd(downstream);
    && Distinct(ids) && |ids| <= cap && |ids| > 0 && ids[0] == root
    && NearestFirst(out, far, root, ids)
    && (forall n :: n in ids ==> Within(out, far, root, n, clamp))
    && (|ids| < cap ==> forall n :: n in ids <==> Within(out, far, root, n, clamp))
    && EdgesAmong(out, far, ids, edges)
    && (!truncated <==> AllListed(out, far, root, ids) && AllEdgesListed(out, far, ids, edges))
    && ids <= Nodes(far, root, Walk(out, far, StrLe, root, clamp).trace)
  }

  /**
   The same told by the relations themselves: chains of them downstream from source to target, or
   upstream from target to source. The edges are exactly the live relations between listed symbols
   that are followed from a symbol nearer than the clamp, truncated or not.
   */
  ghost predicate GraphMeans(db: Snapshot, root: string, predicate_: string, downstream: bool, cap: nat, clamp: nat,
                             ids: seq<string>, edges: seq<Edge>, truncated: bool) {
    && Listing(db, downstream, {predicate_}, root, cap, clamp, ids)
    && (exists via :: Discovery(db, downstream, {predicate_}, root, ids, via))
    && Distinct(edges)
    && (forall e :: e in edges <==>
          Between(db, {predicate_}, ids, e) && LeavesInner(db, downstream, {predicate_}, root, clamp, e))
    && (!truncated <==>
          && AllRelatedListed(db, downstream, {predicate_}, root, ids)
          && forall e :: Between(db, {predicate_}, ids, e) ==> e in edges)
  }

  lemma AnswerMeans(db: Snapshot, root: string, predicate_: string, downstream: bool, cap: nat, clamp: nat,
                    ids: seq<string>, via: map<string, Edge>, edges: seq<Edge>, truncated: bool)
    requires GraphAnswer(db, root, predicate_, downstream, cap, clamp, ids, edges, truncated)
    requires Discovery(db, downstream, {predicate_}, root, ids, via)
    requires EdgesFollowed(EdgesAt(db, downstream, {predicate_}), FarEnd(downstream), root, clamp, ids, edges)
    ensures GraphMeans(db, root, predicate_, downstream, cap, clamp, ids, edges, truncated)
  {
    hide EdgesAt, FarEnd, Within, NearestFirst, AllListed, FromAny, Between, Listing, Walk, Nodes, LeavesInner,
      EdgesFollowed, Discovery;
    FollowedIsBetween(db, downstream, {predicate_}, root, clamp, ids, edges);
    ListingOf(db, downstream, {predicate_}, root, cap, clamp, ids);
    ListedAlike(db, downstream, {predicate_}, root, ids);
    forall e ensures FromAny(EdgesAt(db, downstream, {predicate_}), ids, e) && FarEnd(downstream)(e) in ids <==>
                       Between(db, {predicate_}, ids, e) {
      AmongIsBetween(db, downstream, {predicate_}, ids, e);
    }
  }

  /** What the walk has recorded and the look past the frontier has found make up the answer. */
  lemma WalkAnswers(db: Snapshot, root: string, predicate_: string, downstream: bool, cap: nat, clamp: nat,
                    ids: seq<string>, via: map<string, Edge>, edges: seq<Edge>, frontier: seq<string>, cut: bool,
                    truncated: bool)
    requires var out, far := EdgesAt(db, downstream, {predicate_}), FarEnd(downstream);
      && Explored(out, far, StrLe, root, cap, clamp, ids, via, edges, cut) && root in ids
      && (!cut ==> frontier == Walk(out, far, StrLe, root, clamp).level)
      && (truncated <==> cut || EdgesLeft(out, far, frontier, ids, edges))
    ensures GraphAnswer(db, root, predicate_, downstream, cap, clamp, ids, edges, truncated)
  {
    hide Explored, Walk, Nodes, Within, AllListed, AllEdgesListed, NearestFirst, EdgesAmong, EdgesAt, FarEnd, EdgesLeft;
    var out, far := EdgesAt(db, downstream, {predicate_}), FarEnd(downstream);
    EdgesExact(out, far, StrLe, root, cap, clamp, ids, via, edges, frontier, cut);
    Consequences(out, far, StrLe, root, cap, clamp, ids, via, edges, cut);
  }

  lemma WalkDiscovers(db: Snapshot, root: string, predicate_: string, downstream: bool, cap: nat, clamp: nat,
                      ids: seq<string>, via: map<string, Edge>, edges: seq<Edge>, cut: bool)
    requires var out, far := EdgesAt(db, downstream, {predicate_}), FarEnd(downstream);
      Explored(out, far, StrLe, root, cap, clamp, ids, via, edges, cut) && root in ids
    ensures Discovery(db, downstream, {predicate_}, root, ids, via)
  {
    var out, far := EdgesAt(db, downstream, {predicate_}), FarEnd(downstream);
    RecordedVia(out, far, root, cap, Walk(out, far, StrLe, root, clamp).trace, ids, via, edges, cut);
    hide Explored, Walk, Nodes, Within, NearestFirst, EdgesAmong, EdgesAt, FarEnd, FoundFrom, Discovered, Discovery;
    Consequences(out, far, StrLe, root, cap, clamp, ids, via, edges, cut);
    forall n | n in via ensures FoundFrom(out, far, root, ids, via[n], n) {
      ViaLeadsFrom(out, far, StrLe, root, cap, clamp, ids, via, edges, cut, n);
    }
    DiscoveryOf(db, downstream, {predicate_}, root, clamp, ids, via);
  }

  method FindMoreEdges<N(==, !new), E(==, !new)>(out: N -> seq<E>, far: E -> N, frontier: seq<N>, nodes: seq<N>,
                                                 edges: seq<E>)
    returns (found: bool)
    ensures found <==> EdgesLeft(out, far, frontier, nodes, edges)
  {
    for i := 0 to |frontier|
      invariant forall m :: m in frontier[..i] ==> !MoreEdges(out, far, nodes, edges, m)
    {
      var relations := out(frontier[i]);
      for j := 0 to |relations|
        invariant forall e :: e in relations[..j] ==> e in edges && far(e) in nodes
      {
        if relations[j] !in edges || far(relations[j]) !in nodes {
          assert MoreEdges(out, far, nodes, edges, frontier[i]);
          return true;
        }
      }
    }
    return false;
  }

  method Graph(db: Snapshot, root: string, graphType: string, direction: string, nodeCap: int, depthClamp: int)
    returns (r: Result<GraphResult, ToolError>)
    ensures r == Failure(InvalidArgument) <==> BadArguments(graphType, direction, nodeCap, depthClamp)
    ensures r == Failure(SymbolNotFound) <==>
              !BadArguments(graphType, direction, nodeCap, depthClamp) && root !in db.symbols
    ensures r.Success? ==>
              && GraphAnswer(db, root, PredicateOf(graphType).value, direction == "downstream", nodeCap, depthClamp,
                             Ids(r.value.nodes), r.value.edges, r.value.truncated)
              && GraphMeans(db, root, if graphType == "call" then "calls" else "imports", direction == "downstream",
                            nodeCap, depthClamp, Ids(r.value.nodes), r.value.edges, r.value.truncated)
              && (forall n :: n in r.value.nodes ==>
                    n == if n.id in db.symbols then Resolved(n.id, db.symbols[n.id]) else Unresolved(n.id))
              && r.value.nodes == RenderAll(db, Ids(r.value.nodes))
              && r.value.nodeCap == nodeCap && r.value.depthClamp == depthClamp
  {
    if PredicateOf(graphType).None? { return Failure(InvalidArgument); }
    if direction !in {"upstream", "downstream"} { return Failure(InvalidArgument); }
    if nodeCap <= 0 { return Failure(InvalidArgument); }
    if depthClamp <= 0 { return Failure(InvalidArgument); }
    if root !in db.symbols { return Failure(SymbolNotFound); }
    var downstream, predicates := direction == "downstream", {PredicateOf(graphType).value};
    var nodes, edges, truncated := Traverse(db, root, downstream, PredicateOf(graphType).value, nodeCap, depthClamp);
    assert Ids(RenderAll(db, nodes)) == nodes;
    hide GraphAnswer, GraphMeans;
    return Success(GraphResult(RenderAll(db, nodes), edges, nodeCap, depthClamp, truncated));
  }

  method Traverse(db: Snapshot, root: string, downstream: bool, predicate_: string, cap: nat, clamp: nat)
    returns (nodes: seq<string>, edges: seq<Edge>, truncated: bool)
    requires cap > 0
    ensures GraphAnswer(db, root, predicate_, downstream, cap, clamp, nodes, edges, truncated)
    ensures GraphMeans(db, root, predicate_, downstream, cap, clamp, nodes, edges, truncated)
  {
    hide GraphAnswer, GraphMeans, EdgesFollowed, EdgesLeft, Discovery, Recorded, Walk, EdgesAt, FarEnd;
    var out, far := EdgesAt(db, downstream, {predicate_}), FarEnd(downstream);
    var via, frontier;
    nodes, via, edges, frontier, truncated := Explore(out, far, StrLe, root, cap, clamp);
    ghost var cut := truncated;
    if !truncated && frontier != [] {
      var sorted := Sort(frontier, StrLe);
      SortPermutes(frontier, StrLe);
      truncated := FindMoreEdges(out, far, sorted, nodes, edges);
      SameLeft(out, far, frontier, sorted, nodes, edges);
    } else if frontier == [] {
      NoneLeft(out, far, nodes, edges);
    }
    WalkAnswers(db, root, predicate_, downstream, cap, clamp, nodes, via, edges, frontier, cut, truncated);
    WalkDiscovers(db, root, predicate_, downstream, cap, clamp, nodes, via, edges, cut);
    AnswerMeans(db, root, predicate_, downstream, cap, clamp, nodes, via, edges, truncated);
  }

  lemma SameLeft<N, E>(out: N -> seq<E>, far: E -> N, a: seq<N>, b: seq<N>, nodes: seq<N>, edges: seq<E>)
    requires forall n :: n in a <==> n in b
    ensures EdgesLeft(out, far, a, nodes, edges) <==> EdgesLeft(out, far, b, nodes, edges)
  {
    hide MoreEdges;
  }

  lemma NoneLeft<N, E>(out: N -> seq<E>, far: E -> N, nodes: seq<N>, edges: seq<E>)
    ensures !EdgesLeft(out, far, [], nodes, edges)
  {
  }
}
