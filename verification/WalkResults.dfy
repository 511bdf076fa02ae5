/** What the outcome of a bounded walk says about the graph it walked. */
module WalkResults {
  import opened Wrappers
  import opened Ordering
  import opened Traversal
  import opened BoundedWalk

  /** Nothing reachable is missing. */
  ghost predicate AllListed<N(!new), E>(out: N -> seq<E>, far: E -> N, root: N, nodes: seq<N>) {
    forall n :: Reached(out, far, root, n) ==> n in nodes
  }

  /** No edge between listed nodes is missing. */
  ghost predicate AllEdgesListed<N(!new), E(!new)>(out: N -> seq<E>, far: E -> N, nodes: seq<N>, edges: seq<E>) {
    forall e :: FromAny(out, nodes, e) && far(e) in nodes ==> e in edges
  }

  /** Nodes come in order of their true distance from the root. */
  ghost predicate NearestFirst<N(!new), E>(out: N -> seq<E>, far: E -> N, root: N, nodes: seq<N>) {
    forall i, j, k: nat {:trigger Within(out, far, root, nodes[i], k), nodes[j]} ::
      0 <= i < j < |nodes| && Within(out, far, root, nodes[j], k) ==> Within(out, far, root, nodes[i], k)
  }

  ghost predicate Explored<N(!new), E(!new)>(out: N -> seq<E>, far: E -> N, le: (N, N) -> bool, root: N, cap: nat,
                                             clamp: nat, nodes: seq<N>, via: map<N, E>, edges: seq<E>,
                                             truncated: bool) {
    var full := Walk(out, far, le, root, clamp).trace;
    Recorded(out, far, root, cap, full, full, nodes, via, edges, truncated)
  }

  lemma ReachedExtends<N(!new), E>(out: N -> seq<E>, far: E -> N, root: N, m: N, n: N)
    requires Reached(out, far, root, m) && Links(out, far, m, n)
    ensures Reached(out, far, root, n)
  {
    hide Links;
    var p :| Path(out, far, p, root, m);
    assert Path(out, far, p + [n], root, n);
  }

  lemma EdgeLinks<N, E>(out: N -> seq<E>, far: E -> N, m: N, e: E)
    requires e in out(m)
    ensures Links(out, far, m, far(e))
  {
    FarMembers(far, out(m), far(e));
  }

  /** Every listed node is reachable, within the clamp. */
  lemma ListedIsWithin<N(!new), E(!new)>(out: N -> seq<E>, far: E -> N, le: (N, N) -> bool, root: N, cap: nat,
                                         clamp: nat, nodes: seq<N>, via: map<N, E>, edges: seq<E>, truncated: bool,
                                         n: N)
    requires Explored(out, far, le, root, cap, clamp, nodes, via, edges, truncated) && n in nodes
    ensures Within(out, far, root, n, clamp) && Reached(out, far, root, n)
  {
    hide Walk, Nodes, Within;
    WalkIsBall(out, far, le, root, clamp, n);
    WithinIsReached(out, far, root, n, clamp);
  }

  lemma WithinIsReached<N(!new), E>(out: N -> seq<E>, far: E -> N, root: N, n: N, k: nat)
    requires Within(out, far, root, n, k)
    ensures Reached(out, far, root, n)
  {
  }

  /** Below the cap the nodes are exactly the ball of radius `clamp`. */
  lemma BelowCapIsBall<N(!new), E(!new)>(out: N -> seq<E>, far: E -> N, le: (N, N) -> bool, root: N, cap: nat,
                                         clamp: nat, nodes: seq<N>, via: map<N, E>, edges: seq<E>, truncated: bool,
                                         n: N)
    requires Explored(out, far, le, root, cap, clamp, nodes, via, edges, truncated) && |nodes| < cap
    ensures n in nodes <==> Within(out, far, root, n, clamp)
  {
    hide Walk, Nodes, Within;
    WalkIsBall(out, far, le, root, clamp, n);
  }

  lemma ListedNearestFirst<N(!new), E(!new)>(out: N -> seq<E>, far: E -> N, le: (N, N) -> bool, root: N, cap: nat,
                                             clamp: nat, nodes: seq<N>, via: map<N, E>, edges: seq<E>, truncated: bool)
    requires Explored(out, far, le, root, cap, clamp, nodes, via, edges, truncated)
    ensures NearestFirst(out, far, root, nodes) && Distinct(nodes)
  {
    hide Walk, Nodes, Within;
    var full := Walk(out, far, le, root, clamp).trace;
    NodeMembers(far, root, full, root);
    forall i, j, k: nat | 0 <= i < j < |nodes| && Within(out, far, root, nodes[j], k)
      ensures Within(out, far, root, nodes[i], k)
    {
      if k >= clamp {
        WalkIsBall(out, far, le, root, clamp, nodes[i]);
        WithinGrowsTo(out, far, root, nodes[i], clamp, k);
      } else {
        var inner := Walk(out, far, le, root, k).trace;
        WalkGrows(out, far, le, root, k, clamp);
        NodesPrefix(far, root, inner, full);
        WalkIsBall(out, far, le, root, k, nodes[j]);
        WalkIsBall(out, far, le, root, k, nodes[i]);
        var at :| 0 <= at < |Nodes(far, root, inner)| && Nodes(far, root, inner)[at] == nodes[j];
        assert Nodes(far, root, full)[at] == Nodes(far, root, full)[j];
        assert Nodes(far, root, inner)[i] == nodes[i];
      }
    }
  }

  // ----- the edges that discover nodes -----

  lemma {:induction false} FirstToPresent<N, E>(far: E -> N, root: N, trace: seq<E>, n: N)
    requires n in Nodes(far, root, trace) && n != root
    ensures var e := FirstTo(far, trace, n); e.Some? && e.value in trace && far(e.value) == n
  {
    NodeMembers(far, root, trace, n);
    var before, last := trace[..|trace| - 1], trace[|trace| - 1];
    assert trace == before + [last];
    NodeMembers(far, root, before, n);
    hide Nodes;
    if n in Nodes(far, root, before) { FirstToPresent(far, root, before, n); }
    else { FirstToAbsent(far, root, before, n); }
  }

  /** The node is at that distance and no nearer. */
  ghost predicate AtDistance<N(!new), E>(out: N -> seq<E>, far: E -> N, root: N, n: N, k: nat) {
    forall j: nat :: Within(out, far, root, n, j) <==> k <= j
  }

  lemma ShellDistance<N(!new), E>(out: N -> seq<E>, far: E -> N, root: N, n: N, k: nat)
    requires Within(out, far, root, n, k) && (k > 0 ==> !Within(out, far, root, n, k - 1))
    ensures AtDistance(out, far, root, n, k)
  {
    hide Within;
    forall j: nat ensures Within(out, far, root, n, j) <==> k <= j {
      if k <= j { WithinGrowsTo(out, far, root, n, k, j); }
      else if Within(out, far, root, n, j) { WithinGrowsTo(out, far, root, n, j, k - 1); }
    }
  }

  lemma {:induction false} DistanceExists<N(!new), E>(out: N -> seq<E>, far: E -> N, root: N, n: N, k: nat)
    returns (d: nat)
    requires Within(out, far, root, n, k)
    ensures d <= k && AtDistance(out, far, root, n, d)
    decreases k
  {
    if k > 0 && Within(out, far, root, n, k - 1) {
      d := DistanceExists(out, far, root, n, k - 1);
    } else {
      d := k;
      ShellDistance(out, far, root, n, k);
    }
  }

  lemma DistanceMeans<N(!new), E>(out: N -> seq<E>, far: E -> N, root: N, n: N, k: nat, j: nat)
    requires AtDistance(out, far, root, n, k)
    ensures Within(out, far, root, n, j) <==> k <= j
  {
  }

  /** A node beyond a trace and within a longer one: the edge that discovers it is among those added. */
  lemma FirstAmongAdded<N, E>(far: E -> N, root: N, trace: seq<E>, added: seq<E>, full: seq<E>, n: N)
    requires trace + added <= full && n !in Nodes(far, root, trace) && n in Nodes(far, root, trace + added)
    ensures var e := FirstTo(far, full, n); e.Some? && far(e.value) == n && e.value in added
  {
    NodeMembers(far, root, trace, n);
    hide Nodes;
    FirstToPresent(far, root, trace + added, n);
    FirstToStays(far, trace + added, full, n);
    hide FirstTo;
  }

  /** The first edge followed to a node at distance `d + 1` leaves a node of level `d`. */
  lemma FirstFromLevel<N(!new), E(!new)>(out: N -> seq<E>, far: E -> N, le: (N, N) -> bool, root: N, clamp: nat, n: N,
                                         d: nat) returns (m: N)
    requires AtDistance(out, far, root, n, d + 1) && d < clamp
    ensures var e := FirstTo(far, Walk(out, far, le, root, clamp).trace, n);
      e.Some? && far(e.value) == n && e.value in out(m)
    ensures m in Walk(out, far, le, root, d).level
  {
    hide *;
    var p := Walk(out, far, le, root, d);
    var sorted := Sort(p.level, le);
    WalkIsBall(out, far, le, root, d, n);
    WalkIsBall(out, far, le, root, d + 1, n);
    DistanceMeans(out, far, root, n, d + 1, d);
    DistanceMeans(out, far, root, n, d + 1, d + 1);
    WalkNext(out, far, le, root, d);
    WalkGrows(out, far, le, root, d + 1, clamp);
    FirstAmongAdded(far, root, p.trace, EdgesOf(out, sorted), Walk(out, far, le, root, clamp).trace, n);
    var e := FirstTo(far, Walk(out, far, le, root, clamp).trace, n).value;
    EdgesOfMembers(out, sorted, e);
    m := SomeSource(out, sorted, e);
    SortPermutes(p.level, le);
  }

  lemma SomeSource<N, E>(out: N -> seq<E>, ms: seq<N>, e: E) returns (m: N)
    requires FromAny(out, ms, e)
    ensures m in ms && e in out(m)
  {
    m :| m in ms && e in out(m);
  }

  /** The edge leads from an earlier node of the list that lies exactly one edge nearer to the root. */
  ghost predicate FoundFrom<N(!new), E>(out: N -> seq<E>, far: E -> N, root: N, nodes: seq<N>, e: E, n: N) {
    exists i, j :: Precedes(out, far, root, nodes, e, n, i, j)
  }

  ghost predicate Precedes<N(!new), E>(out: N -> seq<E>, far: E -> N, root: N, nodes: seq<N>, e: E, n: N, i: nat,
                                       j: nat) {
    && i < j < |nodes| && nodes[j] == n && e in out(nodes[i]) && far(e) == n
    && forall k: nat :: Within(out, far, root, n, k + 1) <==> Within(out, far, root, nodes[i], k)
  }

  lemma EarlierPlace<N(!new), E(!new)>(out: N -> seq<E>, far: E -> N, le: (N, N) -> bool, root: N, clamp: nat,
                                       nodes: seq<N>, m: N, n: N, d: nat) returns (i: nat, j: nat)
    requires nodes <= Nodes(far, root, Walk(out, far, le, root, clamp).trace) && n in nodes && d < clamp
    requires m in Walk(out, far, le, root, d).level && !Within(out, far, root, n, d)
    ensures i < j < |nodes| && nodes[i] == m && nodes[j] == n
  {
    var inner, full := Walk(out, far, le, root, d).trace, Walk(out, far, le, root, clamp).trace;
    LevelIsShell(out, far, le, root, d, m);
    WalkIsBall(out, far, le, root, d, m);
    WalkIsBall(out, far, le, root, d, n);
    WalkGrows(out, far, le, root, d, clamp);
    hide Walk, Within;
    NodesPrefix(far, root, inner, full);
    var known, all := Nodes(far, root, inner), Nodes(far, root, full);
    hide Nodes;
    i, j := PrefixFirst(known, nodes, all, m, n);
  }

  lemma PrefixFirst<N>(known: seq<N>, nodes: seq<N>, all: seq<N>, m: N, n: N) returns (i: nat, j: nat)
    requires known <= all && nodes <= all && m in known && n in nodes && n !in known
    ensures i < j < |nodes| && nodes[i] == m && nodes[j] == n
  {
    i :| 0 <= i < |known| && known[i] == m;
    j :| 0 <= j < |nodes| && nodes[j] == n;
    forall at | 0 <= at < |known| ensures all[at] != n { assert known[at] in known; }
  }

  lemma ViaIsFirst<N(!new), E(!new)>(out: N -> seq<E>, far: E -> N, le: (N, N) -> bool, root: N, cap: nat, clamp: nat,
                                     nodes: seq<N>, via: map<N, E>, edges: seq<E>, cut: bool, n: N)
    requires Explored(out, far, le, root, cap, clamp, nodes, via, edges, cut) && n in via
    ensures n in nodes && n != root && FirstTo(far, Walk(out, far, le, root, clamp).trace, n) == Some(via[n])
    ensures nodes <= Nodes(far, root, Walk(out, far, le, root, clamp).trace)
  {
    hide Walk, Nodes, FirstTo;
  }

  lemma OneNearer<N(!new), E>(out: N -> seq<E>, far: E -> N, root: N, nodes: seq<N>, e: E, m: N, n: N, d: nat, i: nat,
                              j: nat)
    requires i < j < |nodes| && nodes[i] == m && nodes[j] == n && e in out(m) && far(e) == n
    requires AtDistance(out, far, root, m, d) && AtDistance(out, far, root, n, d + 1)
    ensures FoundFrom(out, far, root, nodes, e, n)
  {
    hide Within;
    assert Precedes(out, far, root, nodes, e, n, i, j);
  }

  lemma FoundAtDistance<N(!new), E(!new)>(out: N -> seq<E>, far: E -> N, le: (N, N) -> bool, root: N, clamp: nat,
                                          nodes: seq<N>, n: N, e: E, d: nat)
    requires FirstTo(far, Walk(out, far, le, root, clamp).trace, n) == Some(e) && n in nodes && d < clamp
    requires nodes <= Nodes(far, root, Walk(out, far, le, root, clamp).trace)
    requires AtDistance(out, far, root, n, d + 1)
    ensures FoundFrom(out, far, root, nodes, e, n)
  {
    hide *;
    DistanceMeans(out, far, root, n, d + 1, d);
    var m := FirstFromLevel(out, far, le, root, clamp, n, d);
    var i, j := EarlierPlace(out, far, le, root, clamp, nodes, m, n, d);
    LevelIsShell(out, far, le, root, d, m);
    ShellDistance(out, far, root, m, d);
    OneNearer(out, far, root, nodes, e, m, n, d, i, j);
  }

  /** Each node is discovered by an edge from a listed node before it, the last of a shortest path. */
  lemma ViaLeadsFrom<N(!new), E(!new)>(out: N -> seq<E>, far: E -> N, le: (N, N) -> bool, root: N, cap: nat, clamp: nat,
                                       nodes: seq<N>, via: map<N, E>, edges: seq<E>, cut: bool, n: N)
    requires Explored(out, far, le, root, cap, clamp, nodes, via, edges, cut) && n in via
    ensures FoundFrom(out, far, root, nodes, via[n], n)
  {
    hide *;
    ViaIsFirst(out, far, le, root, cap, clamp, nodes, via, edges, cut, n);
    ListedIsWithin(out, far, le, root, cap, clamp, nodes, via, edges, cut, n);
    var d := DistanceExists(out, far, root, n, clamp);
    WithinZero(out, far, root, n);
    DistanceMeans(out, far, root, n, d, 0);
    FoundAtDistance(out, far, le, root, clamp, nodes, n, via[n], d - 1);
  }

  // ----- the truncated flag -----

  lemma DroppedIsMissing<N(!new), E(!new)>(out: N -> seq<E>, far: E -> N, root: N, nodes: seq<N>)
    requires Dropped(out, far, nodes) && forall n :: n in nodes ==> Reached(out, far, root, n)
    ensures !AllListed(out, far, root, nodes)
  {
    hide Reached, Links;
    var e :| FromAny(out, nodes, e) && far(e) !in nodes;
    var m :| m in nodes && e in out(m);
    EdgeLinks(out, far, m, e);
    ReachedExtends(out, far, root, m, far(e));
  }

  /** An edge of a listed node was followed unless its node is on the frontier. */
  lemma FollowedOrFrontier<N(!new), E(!new)>(out: N -> seq<E>, far: E -> N, le: (N, N) -> bool, root: N, cap: nat,
                                             clamp: nat, nodes: seq<N>, via: map<N, E>, edges: seq<E>, frontier: seq<N>,
                                             m: N, e: E)
    requires Explored(out, far, le, root, cap, clamp, nodes, via, edges, false)
    requires frontier == Walk(out, far, le, root, clamp).level
    requires m in nodes && m !in frontier && e in out(m)
    ensures e in edges && far(e) in nodes
  {
    hide Walk, Nodes, Expanded, Add;
    var full := Walk(out, far, le, root, clamp).trace;
    ExpandedAndLevel(out, far, le, root, clamp);
    assert FromAny(out, Expanded(out, far, le, root, clamp), e);
    TraceIsExpanded(out, far, le, root, clamp, e);
    NodeMembers(far, root, full, far(e));
    AddExtends([], full);
  }

  lemma ClosedIsComplete<N(!new), E(!new)>(out: N -> seq<E>, far: E -> N, root: N, nodes: seq<N>)
    requires root in nodes && !Dropped(out, far, nodes)
    ensures AllListed(out, far, root, nodes)
  {
    forall m, n | m in nodes && Links(out, far, m, n) ensures n in nodes {
      FarMembers(far, out(m), n);
      var e :| e in out(m) && far(e) == n;
      assert FromAny(out, nodes, e);
    }
    hide Links;
    forall n | Reached(out, far, root, n) ensures n in nodes {
      var p :| Path(out, far, p, root, n);
      StaysInside(out, far, nodes, p, root, n);
    }
  }

  /** One frontier node leads to something not listed. */
  ghost predicate NodesLeft<N, E>(out: N -> seq<E>, far: E -> N, frontier: seq<N>, nodes: seq<N>) {
    exists m :: m in frontier && MoreNodes(out, far, nodes, m)
  }

  ghost predicate MoreNodes<N, E>(out: N -> seq<E>, far: E -> N, nodes: seq<N>, m: N) {
    exists e :: e in out(m) && far(e) !in nodes
  }

  ghost predicate EdgesLeft<N, E>(out: N -> seq<E>, far: E -> N, frontier: seq<N>, nodes: seq<N>, edges: seq<E>) {
    exists m :: m in frontier && MoreEdges(out, far, nodes, edges, m)
  }

  ghost predicate MoreEdges<N, E>(out: N -> seq<E>, far: E -> N, nodes: seq<N>, edges: seq<E>, m: N) {
    exists e :: e in out(m) && (e !in edges || far(e) !in nodes)
  }

  lemma FrontierListed<N(!new), E(!new)>(out: N -> seq<E>, far: E -> N, le: (N, N) -> bool, root: N, cap: nat,
                                         clamp: nat, nodes: seq<N>, via: map<N, E>, edges: seq<E>)
    requires Explored(out, far, le, root, cap, clamp, nodes, via, edges, false)
    ensures forall m :: m in Walk(out, far, le, root, clamp).level ==> m in nodes
  {
    hide Nodes;
    var p := Walk(out, far, le, root, clamp);
    assert p.level == nodes[|nodes| - |p.level|..];
  }

  /** Cut, or with nodes left beyond the frontier: exactly when something reachable is not listed. */
  lemma NodesExact<N(!new), E(!new)>(out: N -> seq<E>, far: E -> N, le: (N, N) -> bool, root: N, cap: nat, clamp: nat,
                                     nodes: seq<N>, via: map<N, E>, edges: seq<E>, frontier: seq<N>, cut: bool)
    requires Explored(out, far, le, root, cap, clamp, nodes, via, edges, cut) && root in nodes
    requires !cut ==> frontier == Walk(out, far, le, root, clamp).level
    ensures cut || NodesLeft(out, far, frontier, nodes) <==> !AllListed(out, far, root, nodes)
  {
    hide AllListed, Reached, Walk, Nodes;
    forall n | n in nodes ensures Reached(out, far, root, n) {
      ListedIsWithin(out, far, le, root, cap, clamp, nodes, via, edges, cut, n);
    }
    if !cut {
      FrontierListed(out, far, le, root, cap, clamp, nodes, via, edges);
      if m :| m in frontier && MoreNodes(out, far, nodes, m) {
        var e :| e in out(m) && far(e) !in nodes;
        assert FromAny(out, nodes, e);
      }
      forall m, e | m in nodes && e in out(m) && !NodesLeft(out, far, frontier, nodes) ensures far(e) in nodes {
        if m in frontier { assert !MoreNodes(out, far, nodes, m); }
        else { FollowedOrFrontier(out, far, le, root, cap, clamp, nodes, via, edges, frontier, m, e); }
      }
    }
    if Dropped(out, far, nodes) { DroppedIsMissing(out, far, root, nodes); }
    else { ClosedIsComplete(out, far, root, nodes); }
  }

  /** Cut, or with nodes or edges left beyond the frontier: exactly when a reachable node or an edge is not listed. */
  lemma EdgesExact<N(!new), E(!new)>(out: N -> seq<E>, far: E -> N, le: (N, N) -> bool, root: N, cap: nat, clamp: nat,
                                     nodes: seq<N>, via: map<N, E>, edges: seq<E>, frontier: seq<N>, cut: bool)
    requires Explored(out, far, le, root, cap, clamp, nodes, via, edges, cut) && root in nodes
    requires !cut ==> frontier == Walk(out, far, le, root, clamp).level
    ensures cut || EdgesLeft(out, far, frontier, nodes, edges) <==>
            !(AllListed(out, far, root, nodes) && AllEdgesListed(out, far, nodes, edges))
  {
    hide AllListed, Walk, Nodes;
    NodesExact(out, far, le, root, cap, clamp, nodes, via, edges, frontier, cut);
    if !cut {
      FrontierListed(out, far, le, root, cap, clamp, nodes, via, edges);
      if NodesLeft(out, far, frontier, nodes) {
        var m :| m in frontier && MoreNodes(out, far, nodes, m);
        assert MoreEdges(out, far, nodes, edges, m);
      } else if EdgesLeft(out, far, frontier, nodes, edges) {
        var m :| m in frontier && MoreEdges(out, far, nodes, edges, m);
        var e :| e in out(m) && (e !in edges || far(e) !in nodes);
        assert !MoreNodes(out, far, nodes, m);
        assert FromAny(out, nodes, e);
      } else {
        NoneLeftNoneMissing(out, far, le, root, cap, clamp, nodes, via, edges, frontier);
      }
    }
  }

  lemma NoneLeftNoneMissing<N(!new), E(!new)>(out: N -> seq<E>, far: E -> N, le: (N, N) -> bool, root: N, cap: nat,
                                              clamp: nat, nodes: seq<N>, via: map<N, E>, edges: seq<E>,
                                              frontier: seq<N>)
    requires Explored(out, far, le, root, cap, clamp, nodes, via, edges, false)
    requires frontier == Walk(out, far, le, root, clamp).level && !EdgesLeft(out, far, frontier, nodes, edges)
    ensures AllEdgesListed(out, far, nodes, edges)
  {
    hide Explored, Walk, Nodes;
    forall e | FromAny(out, nodes, e) && far(e) in nodes ensures e in edges {
      var m :| m in nodes && e in out(m);
      if m in frontier { assert !MoreEdges(out, far, nodes, edges, m); }
      else { FollowedOrFrontier(out, far, le, root, cap, clamp, nodes, via, edges, frontier, m, e); }
    }
  }

  /** What holds of the nodes and edges of every bounded walk. */
  lemma Consequences<N(!new), E(!new)>(out: N -> seq<E>, far: E -> N, le: (N, N) -> bool, root: N, cap: nat, clamp: nat,
                                       nodes: seq<N>, via: map<N, E>, edges: seq<E>, cut: bool)
    requires Explored(out, far, le, root, cap, clamp, nodes, via, edges, cut) && root in nodes
    ensures Distinct(nodes) && |nodes| <= cap && nodes[0] == root && NearestFirst(out, far, root, nodes)
    ensures forall n :: n in nodes ==> Within(out, far, root, n, clamp)
    ensures |nodes| < cap ==> forall n :: n in nodes <==> Within(out, far, root, n, clamp)
    ensures EdgesAmong(out, far, nodes, edges)
    ensures nodes <= Nodes(far, root, Walk(out, far, le, root, clamp).trace)
  {
    hide Walk, Within, NearestFirst, EdgesAmong, Dropped, Nodes;
    ListedNearestFirst(out, far, le, root, cap, clamp, nodes, via, edges, cut);
    RootFirst(far, root, Walk(out, far, le, root, clamp).trace);
    forall n | n in nodes ensures Within(out, far, root, n, clamp) {
      ListedIsWithin(out, far, le, root, cap, clamp, nodes, via, edges, cut, n);
    }
    if |nodes| < cap {
      forall n ensures n in nodes <==> Within(out, far, root, n, clamp) {
        BelowCapIsBall(out, far, le, root, cap, clamp, nodes, via, edges, cut, n);
      }
    }
  }

  lemma RootFirst<N, E>(far: E -> N, root: N, trace: seq<E>)
    ensures Nodes(far, root, trace) != [] && Nodes(far, root, trace)[0] == root
  {
    AddExtends([root], Far(far, trace));
  }
}
