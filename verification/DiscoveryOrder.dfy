/** The order in which a bounded walk lists nodes of one distance, and which of several edges discovers a node. */
module DiscoveryOrder {
  import opened Wrappers
  import opened Ordering
  import opened Traversal
  import opened BoundedWalk
  import opened WalkResults

  /** The edges leave nodes in sorted order, and one node's edges come in their order there. */
  ghost predicate NotLater<N(!new), E>(out: N -> seq<E>, le: (N, N) -> bool, e: E, f: E) {
    exists m, n :: Follows(out, le, e, f, m, n)
  }

  ghost predicate Follows<N, E>(out: N -> seq<E>, le: (N, N) -> bool, e: E, f: E, m: N, n: N) {
    && e in out(m) && f in out(n) && le(m, n)
    && (m == n ==> exists c, d :: 0 <= c <= d < |out(m)| && out(m)[c] == e && out(m)[d] == f)
  }

  lemma {:induction false} EdgesInOrder<N(!new), E>(out: N -> seq<E>, le: (N, N) -> bool, s: seq<N>, a: nat, b: nat)
    requires TotalPreorder(le) && Ordered(s, le) && Distinct(s) && a <= b < |EdgesOf(out, s)|
    ensures NotLater(out, le, EdgesOf(out, s)[a], EdgesOf(out, s)[b])
    decreases |s|
  {
    var before, last := s[..|s| - 1], s[|s| - 1];
    var es, k := EdgesOf(out, before), |EdgesOf(out, before)|;
    if b < k {
      EdgesInOrder(out, le, before, a, b);
    } else if a < k {
      assert es[a] in es;
      EdgesOfMembers(out, before, es[a]);
      var m :| m in before && es[a] in out(m);
      assert Follows(out, le, es[a], out(last)[b - k], m, last);
    } else {
      assert le(last, last);
      assert Follows(out, le, out(last)[a - k], out(last)[b - k], last, last);
    }
  }

  /** Where the edge that discovers a node stands among all edges followed. */
  lemma {:induction false} FirstPosition<N, E>(far: E -> N, trace: seq<E>, n: N) returns (a: nat)
    requires FirstTo(far, trace, n).Some?
    ensures a < |trace| && trace[a] == FirstTo(far, trace, n).value && far(trace[a]) == n
    ensures forall b :: 0 <= b < a ==> far(trace[b]) != n
  {
    var before, last := trace[..|trace| - 1], trace[|trace| - 1];
    if FirstTo(far, before, n).Some? {
      a := FirstPosition(far, before, n);
    } else {
      a := |trace| - 1;
      NoneBefore(far, before, n);
    }
  }

  lemma {:induction false} NoneBefore<N, E>(far: E -> N, trace: seq<E>, n: N)
    requires FirstTo(far, trace, n).None?
    ensures forall b :: 0 <= b < |trace| ==> far(trace[b]) != n
  {
    if trace != [] { NoneBefore(far, trace[..|trace| - 1], n); }
  }

  /** A node is known after a prefix of the trace exactly if the edge that discovers it is in the prefix. */
  lemma KnownFrom<N, E>(far: E -> N, root: N, trace: seq<E>, n: N, a: nat, k: nat)
    requires a < |trace| && far(trace[a]) == n && n != root && k <= |trace|
    requires forall b :: 0 <= b < a ==> far(trace[b]) != n
    ensures n in Nodes(far, root, trace[..k]) <==> a < k
  {
    NodeMembers(far, root, trace[..k], n);
    if a < k { assert trace[..k][a] == trace[a]; }
  }

  /** Nodes are listed in the order of the edges that discover them. */
  lemma ListedAsDiscovered<N, E>(far: E -> N, root: N, trace: seq<E>, i: nat, j: nat, a: nat, b: nat)
    requires 0 < i < j < |Nodes(far, root, trace)|
    requires var nodes := Nodes(far, root, trace);
      && a < |trace| && far(trace[a]) == nodes[i] && (forall c :: 0 <= c < a ==> far(trace[c]) != nodes[i])
      && b < |trace| && far(trace[b]) == nodes[j] && (forall c :: 0 <= c < b ==> far(trace[c]) != nodes[j])
    ensures a < b
  {
    var nodes, part := Nodes(far, root, trace), Nodes(far, root, trace[..b]);
    RootFirst(far, root, trace);
    NodeMembers(far, root, trace, root);
    NodesPrefix(far, root, trace[..b], trace);
    NodesPrefix(far, root, trace[..b + 1], trace);
    assert trace[..b + 1] == trace[..b] + [trace[b]];
    NodesPush(far, root, trace[..b], trace[b]);
    KnownFrom(far, root, trace, nodes[j], b, b);
    KnownFrom(far, root, trace, nodes[i], a, b);
    hide Nodes;
    assert nodes[|part|] == nodes[j];
    assert part[i] == nodes[i];
  }

  /** The edges that discover nodes of distance `d + 1` are among those followed from level `d`. */
  lemma InChunk<N(!new), E(!new)>(out: N -> seq<E>, far: E -> N, le: (N, N) -> bool, root: N, clamp: nat, d: nat, n: N,
                                  a: nat)
    requires AtDistance(out, far, root, n, d + 1) && d < clamp
    requires var full := Walk(out, far, le, root, clamp).trace;
      a < |full| && far(full[a]) == n && forall b :: 0 <= b < a ==> far(full[b]) != n
    ensures |Walk(out, far, le, root, d).trace| <= a < |Walk(out, far, le, root, d + 1).trace|
  {
    hide *;
    var full := Walk(out, far, le, root, clamp).trace;
    var p, q := Walk(out, far, le, root, d).trace, Walk(out, far, le, root, d + 1).trace;
    WalkGrows(out, far, le, root, d, clamp);
    WalkGrows(out, far, le, root, d + 1, clamp);
    assert full[..|p|] == p && full[..|q|] == q;
    WalkIsBall(out, far, le, root, d, n);
    WalkIsBall(out, far, le, root, d + 1, n);
    DistanceMeans(out, far, root, n, d + 1, d);
    DistanceMeans(out, far, root, n, d + 1, d + 1);
    DistanceMeans(out, far, root, n, d + 1, 0);
    WithinZero(out, far, root, n);
    KnownFrom(far, root, full, n, a, |p|);
    KnownFrom(far, root, full, n, a, |q|);
  }

  /** Two edges followed from one level: the one followed first leaves a node that sorts first. */
  lemma ChunkInOrder<N(!new), E(!new)>(out: N -> seq<E>, far: E -> N, le: (N, N) -> bool, root: N, clamp: nat, d: nat,
                                       a: nat, b: nat)
    requires TotalPreorder(le) && d < clamp && a <= b
    requires |Walk(out, far, le, root, d).trace| <= a && b < |Walk(out, far, le, root, d + 1).trace|
    ensures var full := Walk(out, far, le, root, clamp).trace;
      b < |full| && NotLater(out, le, full[a], full[b])
  {
    hide *;
    var p, q, full := Walk(out, far, le, root, d), Walk(out, far, le, root, d + 1), Walk(out, far, le, root, clamp);
    WalkNext(out, far, le, root, d);
    WalkGrows(out, far, le, root, d + 1, clamp);
    LevelDistinct(out, far, le, root, d);
    var s := Sort(p.level, le);
    SortOrders(p.level, le);
    SortDistinct(p.level, le);
    var k := |p.trace|;
    EdgesInOrder(out, le, s, a - k, b - k);
    assert q.trace[a] == EdgesOf(out, s)[a - k] && q.trace[b] == EdgesOf(out, s)[b - k];
  }

  lemma LevelDistinct<N, E>(out: N -> seq<E>, far: E -> N, le: (N, N) -> bool, root: N, d: nat)
    ensures Distinct(Walk(out, far, le, root, d).level)
  {
    var p := Walk(out, far, le, root, d);
    NodeMembers(far, root, p.trace, root);
    hide Walk, Nodes;
  }

  lemma SortDistinct<T>(s: seq<T>, le: (T, T) -> bool)
    requires Distinct(s)
    ensures Distinct(Sort(s, le))
  {
    SortPermutes(s, le);
    DistinctCounts(s);
    CountsDistinct(Sort(s, le));
  }

  /** Of two listed nodes at one distance the first was discovered by the edge followed first. */
  lemma DiscoveredInOrder<N(!new), E(!new)>(out: N -> seq<E>, far: E -> N, le: (N, N) -> bool, root: N, clamp: nat,
                                            i: nat, j: nat, d: nat)
    requires TotalPreorder(le) && d < clamp
    requires var full := Walk(out, far, le, root, clamp).trace;
      && 0 < i < j < |Nodes(far, root, full)|
      && AtDistance(out, far, root, Nodes(far, root, full)[i], d + 1)
      && AtDistance(out, far, root, Nodes(far, root, full)[j], d + 1)
    ensures var full := Walk(out, far, le, root, clamp).trace;
      var e, f := FirstTo(far, full, Nodes(far, root, full)[i]), FirstTo(far, full, Nodes(far, root, full)[j]);
      e.Some? && f.Some? && NotLater(out, le, e.value, f.value)
  {
    hide *;
    var full := Walk(out, far, le, root, clamp).trace;
    var m, n := Nodes(far, root, full)[i], Nodes(far, root, full)[j];
    NotRoot(out, far, root, m, d);
    NotRoot(out, far, root, n, d);
    FirstToPresent(far, root, full, m);
    FirstToPresent(far, root, full, n);
    var a := FirstPosition(far, full, m);
    var b := FirstPosition(far, full, n);
    ListedAsDiscovered(far, root, full, i, j, a, b);
    InChunk(out, far, le, root, clamp, d, m, a);
    InChunk(out, far, le, root, clamp, d, n, b);
    ChunkInOrder(out, far, le, root, clamp, d, a, b);
  }

  lemma NotRoot<N(!new), E>(out: N -> seq<E>, far: E -> N, root: N, n: N, d: nat)
    requires AtDistance(out, far, root, n, d + 1)
    ensures n != root
  {
    hide *;
    DistanceMeans(out, far, root, n, d + 1, 0);
    WithinZero(out, far, root, n);
  }

  /** Of the edges that lead to a node from one step nearer, the one followed first discovers it. */
  lemma DiscoveredByFirst<N(!new), E(!new)>(out: N -> seq<E>, far: E -> N, le: (N, N) -> bool, root: N, clamp: nat,
                                            m: N, n: N, f: E, d: nat)
    requires TotalPreorder(le) && d < clamp
    requires AtDistance(out, far, root, m, d) && AtDistance(out, far, root, n, d + 1) && f in out(m) && far(f) == n
    ensures var e := FirstTo(far, Walk(out, far, le, root, clamp).trace, n); e.Some? && NotLater(out, le, e.value, f)
  {
    hide *;
    var p, full := Walk(out, far, le, root, d), Walk(out, far, le, root, clamp).trace;
    var _ := FirstFromLevel(out, far, le, root, clamp, n, d);
    var a := FirstPosition(far, full, n);
    InChunk(out, far, le, root, clamp, d, n, a);
    LevelAtDistance(out, far, le, root, m, d);
    SortPermutes(p.level, le);
    var s := Sort(p.level, le);
    var b := EdgePosition(out, s, m, f);
    WalkNext(out, far, le, root, d);
    WalkGrows(out, far, le, root, d + 1, clamp);
    var k := |p.trace|;
    assert full[k + b] == f;
    ChunkInOrder(out, far, le, root, clamp, d, a, k + b);
  }

  lemma LevelAtDistance<N(!new), E>(out: N -> seq<E>, far: E -> N, le: (N, N) -> bool, root: N, m: N, d: nat)
    requires AtDistance(out, far, root, m, d)
    ensures m in Walk(out, far, le, root, d).level
  {
    hide *;
    LevelIsShell(out, far, le, root, d, m);
    DistanceMeans(out, far, root, m, d, d);
    if d > 0 { DistanceMeans(out, far, root, m, d, d - 1); }
  }

  lemma EdgePosition<N, E>(out: N -> seq<E>, s: seq<N>, m: N, f: E) returns (b: nat)
    requires m in s && f in out(m)
    ensures b < |EdgesOf(out, s)| && EdgesOf(out, s)[b] == f
  {
    EdgesOfMembers(out, s, f);
    b :| 0 <= b < |EdgesOf(out, s)| && EdgesOf(out, s)[b] == f;
  }
}
