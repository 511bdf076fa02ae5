/**
 The loop of `graph`, `impact_analysis` and `affected_tests`: the walk of `Traversal`, stopped
 from growing by the node cap and from deepening by the depth clamp.
 */
module BoundedWalk {
  import opened Wrappers
  import opened Ordering
  import opened Traversal

  /** The first edge followed to a node: the one that discovers it. */
  function FirstTo<N(==), E>(far: E -> N, trace: seq<E>, n: N): Option<E> {
    if trace == [] then None
    else
      match FirstTo(far, trace[..|trace| - 1], n)
      case Some(e) => Some(e)
      case None => if far(trace[|trace| - 1]) == n then Some(trace[|trace| - 1]) else None
  }

  /** Something the listed nodes link to is not listed. */
  ghost predicate Dropped<N(!new), E(!new)>(out: N -> seq<E>, far: E -> N, nodes: seq<N>) {
    exists e :: FromAny(out, nodes, e) && far(e) !in nodes
  }

  /** Recorded edges run between recorded nodes, each recorded once. */
  ghost predicate EdgesAmong<N, E(!new)>(out: N -> seq<E>, far: E -> N, nodes: seq<N>, edges: seq<E>) {
    Distinct(edges) && forall e :: e in edges ==> FromAny(out, nodes, e) && far(e) in nodes
  }

  ghost predicate Discovered<N(!new), E>(far: E -> N, root: N, full: seq<E>, nodes: seq<N>, via: map<N, E>) {
    && (forall n :: n in via <==> n in nodes && n != root)
    && (forall n :: n in via ==> FirstTo(far, full, n) == Some(via[n]))
  }

  /** What has been recorded after following `done`, if nothing was cut; `full` is the whole walk. */
  ghost predicate Recorded<N(!new), E(!new)>(out: N -> seq<E>, far: E -> N, root: N, cap: nat, full: seq<E>,
                                             done: seq<E>, nodes: seq<N>, via: map<N, E>, edges: seq<E>,
                                             truncated: bool) {
    && |nodes| <= cap
    && nodes <= Nodes(far, root, full)
    && (!truncated ==> nodes == Nodes(far, root, done) && edges == Add([], done))
    && (truncated ==> |nodes| == cap && Dropped(out, far, nodes))
    && EdgesAmong(out, far, nodes, edges)
    && Discovered(far, root, full, nodes, via)
  }

  lemma {:induction false} FirstToStays<N, E>(far: E -> N, trace: seq<E>, full: seq<E>, n: N)
    requires trace <= full && FirstTo(far, trace, n).Some?
    ensures FirstTo(far, full, n) == FirstTo(far, trace, n)
    decreases |full|
  {
    if trace == full {
    } else {
      FirstToStays(far, trace, full[..|full| - 1], n);
    }
  }

  lemma {:induction false} FirstToAbsent<N, E>(far: E -> N, root: N, trace: seq<E>, n: N)
    requires n !in Nodes(far, root, trace)
    ensures FirstTo(far, trace, n) == None
  {
    if trace != [] {
      var before, last := trace[..|trace| - 1], trace[|trace| - 1];
      assert trace == before + [last];
      NodeMembers(far, root, trace, n);
      NodeMembers(far, root, before, n);
      FirstToAbsent(far, root, before, n);
    }
  }

  lemma NodesPush<N, E>(far: E -> N, root: N, trace: seq<E>, e: E)
    ensures var nodes := Nodes(far, root, trace);
      Nodes(far, root, trace + [e]) == if far(e) in nodes then nodes else nodes + [far(e)]
  {
    assert Far(far, trace + [e]) == Far(far, trace) + [far(e)];
    assert (Far(far, trace) + [far(e)])[..|trace|] == Far(far, trace);
  }

  lemma AddPush<E>(known: seq<E>, e: E)
    ensures Add([], known + [e]) == if e in Add([], known) then Add([], known) else Add([], known) + [e]
  {
    assert (known + [e])[..|known|] == known;
  }

  lemma NodesPrefix<N, E>(far: E -> N, root: N, trace: seq<E>, full: seq<E>)
    requires trace <= full
    ensures Nodes(far, root, trace) <= Nodes(far, root, full)
  {
    assert full == trace + full[|trace|..];
    NodesGrow(far, root, trace, full[|trace|..]);
  }

  lemma FromAnyStays<N, E>(out: N -> seq<E>, ms: seq<N>, more: seq<N>, e: E)
    requires FromAny(out, ms, e)
    ensures FromAny(out, ms + more, e)
  {
    var m :| m in ms && e in out(m);
    assert m in ms + more;
  }

  lemma FollowKnown<N(!new), E(!new)>(out: N -> seq<E>, far: E -> N, root: N, cap: nat, full: seq<E>, done: seq<E>,
                                      e: E, nodes: seq<N>, via: map<N, E>, edges: seq<E>, truncated: bool)
    requires Recorded(out, far, root, cap, full, done, nodes, via, edges, truncated)
    requires far(e) in nodes && FromAny(out, nodes, e)
    ensures Recorded(out, far, root, cap, full, done + [e], nodes, via,
                     if e in edges then edges else edges + [e], truncated)
  {
    NodesPush(far, root, done, e);
    AddPush(done, e);
    hide Nodes, Dropped, FromAny, Discovered;
  }

  lemma AmongGrows<N(!new), E(!new)>(out: N -> seq<E>, far: E -> N, nodes: seq<N>, edges: seq<E>, e: E)
    requires EdgesAmong(out, far, nodes, edges) && FromAny(out, nodes, e)
    ensures EdgesAmong(out, far, nodes + [far(e)], if e in edges then edges else edges + [e])
  {
    var edges' := if e in edges then edges else edges + [e];
    forall x | x in edges' ensures FromAny(out, nodes + [far(e)], x) && far(x) in nodes + [far(e)] {
      FromAnyStays(out, nodes, [far(e)], x);
    }
    hide FromAny;
  }

  lemma DiscoversNew<N(!new), E>(far: E -> N, root: N, full: seq<E>, done: seq<E>, e: E, nodes: seq<N>, via: map<N, E>)
    requires Discovered(far, root, full, nodes, via) && done + [e] <= full
    requires nodes == Nodes(far, root, done) && far(e) !in nodes && root in nodes
    ensures Discovered(far, root, full, nodes + [far(e)], via[far(e) := e])
  {
    FirstToAbsent(far, root, done, far(e));
    assert (done + [e])[..|done|] == done;
    assert FirstTo(far, done + [e], far(e)) == Some(e);
    hide Nodes, FirstTo;
    FirstToStays(far, done + [e], full, far(e));
  }

  lemma FollowNew<N(!new), E(!new)>(out: N -> seq<E>, far: E -> N, root: N, cap: nat, full: seq<E>, done: seq<E>, e: E,
                                    nodes: seq<N>, via: map<N, E>, edges: seq<E>)
    requires Recorded(out, far, root, cap, full, done, nodes, via, edges, false) && done + [e] <= full
    requires far(e) !in nodes && |nodes| < cap && FromAny(out, nodes, e) && root in nodes
    ensures Recorded(out, far, root, cap, full, done + [e], nodes + [far(e)], via[far(e) := e],
                     if e in edges then edges else edges + [e], false)
  {
    hide Nodes, Dropped, FromAny, EdgesAmong, Discovered;
    NodesPush(far, root, done, e);
    AddPush(done, e);
    NodesPrefix(far, root, done + [e], full);
    AmongGrows(out, far, nodes, edges, e);
    DiscoversNew(far, root, full, done, e, nodes, via);
  }

  /**
   Of the edges followed so far exactly those to listed nodes are recorded, also after the walk has
   been cut; while it has not been, all of them lead to listed nodes.
   */
  ghost predicate Kept<N, E(!new)>(far: E -> N, followed: seq<E>, nodes: seq<N>, edges: seq<E>, truncated: bool) {
    && (forall e :: e in edges <==> e in followed && far(e) in nodes)
    && (!truncated ==> forall e :: e in followed ==> far(e) in nodes)
  }

  lemma KeptNext<N, E(!new)>(far: E -> N, followed: seq<E>, e: E, nodes: seq<N>, edges: seq<E>, truncated: bool,
                             nodes': seq<N>, edges': seq<E>, truncated': bool)
    requires Kept(far, followed, nodes, edges, truncated)
    requires nodes' == nodes || (!truncated && nodes' == nodes + [far(e)])
    requires truncated ==> truncated'
    requires !truncated' ==> far(e) in nodes'
    requires edges' == if far(e) in nodes' && e !in edges then edges + [e] else edges
    ensures Kept(far, followed + [e], nodes', edges', truncated')
  {
    forall x ensures x in edges' <==> x in followed + [e] && far(x) in nodes' {
      assert x in followed + [e] <==> x in followed || x == e;
    }
  }

  /** One edge of the loop body. */
  method Follow<N(==, !new), E(==, !new)>(out: N -> seq<E>, far: E -> N, root: N, cap: nat, ghost full: seq<E>,
                                          ghost done: seq<E>, ghost current: N, e: E, nodes: seq<N>, via: map<N, E>,
                                          edges: seq<E>, truncated: bool, ghost followed: seq<E>)
    returns (nodes': seq<N>, via': map<N, E>, edges': seq<E>, truncated': bool)
    requires Recorded(out, far, root, cap, full, done, nodes, via, edges, truncated)
    requires Kept(far, followed, nodes, edges, truncated)
    requires !truncated ==> done + [e] <= full
    requires current in nodes && e in out(current) && root in nodes
    ensures Recorded(out, far, root, cap, full, done + [e], nodes', via', edges', truncated')
    ensures Kept(far, followed + [e], nodes', edges', truncated')
    ensures nodes' == nodes || nodes' == nodes + [far(e)]
    ensures truncated ==> truncated' && nodes' == nodes
  {
    nodes', via', edges', truncated' := nodes, via, edges, truncated;
    assert FromAny(out, nodes, e);
    var isNew := far(e) !in nodes;
    if isNew && |nodes| >= cap {
      truncated' := true;
      KeptNext(far, followed, e, nodes, edges, truncated, nodes', edges', truncated');
      return;
    }
    assert isNew ==> !truncated;
    hide Recorded, FromAny, Kept;
    if e !in edges { edges' := edges + [e]; }
    if isNew {
      nodes', via' := nodes + [far(e)], via[far(e) := e];
      FollowNew(out, far, root, cap, full, done, e, nodes, via, edges);
    } else {
      FollowKnown(out, far, root, cap, full, done, e, nodes, via, edges, truncated);
    }
    KeptNext(far, followed, e, nodes, edges, truncated, nodes', edges', truncated');
  }

  /** All edges of one node, in order. */
  method Expand<N(==, !new), E(==, !new)>(out: N -> seq<E>, far: E -> N, root: N, cap: nat, ghost full: seq<E>,
                                          ghost done: seq<E>, current: N, nodes: seq<N>, via: map<N, E>, edges: seq<E>,
                                          truncated: bool, ghost followed: seq<E>)
    returns (nodes': seq<N>, via': map<N, E>, edges': seq<E>, truncated': bool)
    requires Recorded(out, far, root, cap, full, done, nodes, via, edges, truncated)
    requires Kept(far, followed, nodes, edges, truncated)
    requires !truncated ==> done + out(current) <= full
    requires current in nodes && root in nodes
    ensures Recorded(out, far, root, cap, full, done + out(current), nodes', via', edges', truncated')
    ensures Kept(far, followed + out(current), nodes', edges', truncated')
    ensures nodes <= nodes' && forall n :: n in nodes'[|nodes|..] ==> Links(out, far, current, n)
    ensures truncated ==> truncated' && nodes' == nodes
  {
    hide Recorded, Kept;
    nodes', via', edges', truncated' := nodes, via, edges, truncated;
    var relations := out(current);
    assert done + relations[..0] == done && followed + relations[..0] == followed;
    for j := 0 to |relations|
      invariant Kept(far, followed + relations[..j], nodes', edges', truncated')
      invariant Recorded(out, far, root, cap, full, done + relations[..j], nodes', via', edges', truncated')
      invariant nodes <= nodes' && forall n :: n in nodes'[|nodes|..] ==> Links(out, far, current, n)
      invariant truncated ==> truncated' && nodes' == nodes
      invariant !truncated' ==> done + relations <= full
    {
      assert done + relations[..j] + [relations[j]] == done + relations[..j + 1];
      assert followed + relations[..j] + [relations[j]] == followed + relations[..j + 1];
      assert done + relations[..j + 1] <= done + relations;
      FarMembers(far, relations, far(relations[j]));
      nodes', via', edges', truncated' :=
        Follow(out, far, root, cap, full, done + relations[..j], current, relations[j],
               nodes', via', edges', truncated', followed + relations[..j]);
    }
    assert relations[..|relations|] == relations;
  }

  /** One level: every node of the frontier, in sorted order. The nodes it adds are the next frontier. */
  method ExpandLevel<N(==, !new), E(==, !new)>(out: N -> seq<E>, far: E -> N, root: N, cap: nat, ghost full: seq<E>,
                                               ghost done: seq<E>, sorted: seq<N>, nodes: seq<N>, via: map<N, E>,
                                               edges: seq<E>, truncated: bool, ghost followed: seq<E>)
    returns (nodes': seq<N>, via': map<N, E>, edges': seq<E>, truncated': bool, next: seq<N>)
    requires Recorded(out, far, root, cap, full, done, nodes, via, edges, truncated)
    requires Kept(far, followed, nodes, edges, truncated)
    requires !truncated ==> done + EdgesOf(out, sorted) <= full
    requires root in nodes && forall n :: n in sorted ==> n in nodes
    ensures Recorded(out, far, root, cap, full, done + EdgesOf(out, sorted), nodes', via', edges', truncated')
    ensures Kept(far, followed + EdgesOf(out, sorted), nodes', edges', truncated')
    ensures nodes' == nodes + next && forall n :: n in next ==> exists m :: m in sorted && Links(out, far, m, n)
    ensures truncated ==> truncated' && nodes' == nodes
  {
    hide Recorded, Kept, Links, EdgesOf;
    nodes', via', edges', truncated' := nodes, via, edges, truncated;
    next := [];
    EdgesOfNext(out, sorted, done, followed, 0);
    for i := 0 to |sorted|
      invariant Recorded(out, far, root, cap, full, done + EdgesOf(out, sorted[..i]), nodes', via', edges', truncated')
      invariant Kept(far, followed + EdgesOf(out, sorted[..i]), nodes', edges', truncated')
      invariant nodes' == nodes + next && forall n :: n in next ==> exists m :: m in sorted && Links(out, far, m, n)
      invariant truncated ==> truncated' && nodes' == nodes
      invariant !truncated' ==> done + EdgesOf(out, sorted) <= full
    {
      ghost var here, sofar := done + EdgesOf(out, sorted[..i]), followed + EdgesOf(out, sorted[..i]);
      EdgesOfNext(out, sorted, done, followed, i);
      EdgesOfPrefix(out, sorted, i + 1);
      var before := nodes';
      nodes', via', edges', truncated' :=
        Expand(out, far, root, cap, full, here, sorted[i], nodes', via', edges', truncated', sofar);
      next := next + nodes'[|before|..];
    }
    assert sorted[..|sorted|] == sorted;
  }

  lemma EdgesOfNext<N, E>(out: N -> seq<E>, s: seq<N>, done: seq<E>, followed: seq<E>, i: nat)
    requires i <= |s|
    ensures done + EdgesOf(out, s[..0]) == done && followed + EdgesOf(out, s[..0]) == followed
    ensures i < |s| ==>
              && done + EdgesOf(out, s[..i + 1]) == done + EdgesOf(out, s[..i]) + out(s[i])
              && followed + EdgesOf(out, s[..i + 1]) == followed + EdgesOf(out, s[..i]) + out(s[i])
  {
    if i < |s| { assert s[..i + 1][..i] == s[..i]; }
  }

  lemma {:induction false} EdgesOfPrefix<N, E>(out: N -> seq<E>, ns: seq<N>, k: nat)
    requires k <= |ns|
    ensures EdgesOf(out, ns[..k]) <= EdgesOf(out, ns)
    decreases |ns|
  {
    if k < |ns| {
      assert ns[..|ns| - 1][..k] == ns[..k];
      EdgesOfPrefix(out, ns[..|ns| - 1], k);
    } else {
      assert ns[..k] == ns;
    }
  }

  lemma {:induction false} WalkGrows<N, E>(out: N -> seq<E>, far: E -> N, le: (N, N) -> bool, root: N, a: nat, b: nat)
    requires a <= b
    ensures Walk(out, far, le, root, a).trace <= Walk(out, far, le, root, b).trace
    decreases b
  {
    hide Walk, EdgesOf, Sort;
    if a < b {
      WalkGrows(out, far, le, root, a, b - 1);
      WalkNext(out, far, le, root, b - 1);
    }
  }

  lemma WalkIdle<N, E>(out: N -> seq<E>, far: E -> N, le: (N, N) -> bool, root: N, depth: nat)
    requires Walk(out, far, le, root, depth).level == []
    ensures Walk(out, far, le, root, depth + 1) == Walk(out, far, le, root, depth)
  {
    var p := Walk(out, far, le, root, depth);
    assert EdgesOf(out, Sort<N>([], le)) == [];
    assert p.trace + [] == p.trace;
  }

  /** Once a level adds nothing the walk has ended. */
  lemma {:induction false} WalkEnded<N, E>(out: N -> seq<E>, far: E -> N, le: (N, N) -> bool, root: N, a: nat, b: nat)
    requires a <= b && Walk(out, far, le, root, a).level == []
    ensures Walk(out, far, le, root, b) == Walk(out, far, le, root, a)
    decreases b
  {
    hide Walk;
    if a < b {
      WalkEnded(out, far, le, root, a, b - 1);
      WalkIdle(out, far, le, root, b - 1);
    }
  }

  lemma Started<N(!new), E(!new)>(out: N -> seq<E>, far: E -> N, root: N, cap: nat, full: seq<E>)
    requires cap > 0
    ensures Recorded(out, far, root, cap, full, [], [root], map[], [], false)
  {
    assert Nodes(far, root, []) == [root];
    NodesPrefix(far, root, [], full);
  }

  lemma CutIgnoresDone<N(!new), E(!new)>(out: N -> seq<E>, far: E -> N, root: N, cap: nat, full: seq<E>, done: seq<E>,
                                         other: seq<E>, nodes: seq<N>, via: map<N, E>, edges: seq<E>)
    requires Recorded(out, far, root, cap, full, done, nodes, via, edges, true)
    ensures Recorded(out, far, root, cap, full, other, nodes, via, edges, true)
  {
  }

  lemma UncutNodes<N(!new), E(!new)>(out: N -> seq<E>, far: E -> N, root: N, cap: nat, full: seq<E>, done: seq<E>,
                                     nodes: seq<N>, via: map<N, E>, edges: seq<E>)
    requires Recorded(out, far, root, cap, full, done, nodes, via, edges, false)
    ensures nodes == Nodes(far, root, done) && edges == Add([], done)
  {
  }

  lemma ShellIsSuffix<N, E>(out: N -> seq<E>, far: E -> N, le: (N, N) -> bool, root: N, depth: nat,
                            before: seq<N>, nodes: seq<N>, next: seq<N>)
    requires before == Nodes(far, root, Walk(out, far, le, root, depth).trace)
    requires nodes == Nodes(far, root, Walk(out, far, le, root, depth + 1).trace) && nodes == before + next
    ensures next == Walk(out, far, le, root, depth + 1).level
  {
    hide Walk, Nodes;
    LevelNext(out, far, le, root, depth);
  }

  lemma {:induction false} EdgesOfAppend<N, E>(out: N -> seq<E>, a: seq<N>, b: seq<N>)
    ensures EdgesOf(out, a + b) == EdgesOf(out, a) + EdgesOf(out, b)
  {
    if b == [] {
      assert a + b == a;
    } else {
      assert (a + b)[..|a + b| - 1] == a + b[..|b| - 1];
      EdgesOfAppend(out, a, b[..|b| - 1]);
    }
  }

  /** The listed nodes are those expanded, all nearer than the frontier, and the frontier, all at the depth reached. */
  ghost predicate Progressed<N(!new), E>(out: N -> seq<E>, far: E -> N, root: N, depth: nat, nodes: seq<N>,
                                         expanded: seq<N>, frontier: seq<N>) {
    && (forall n :: n in nodes <==> n in expanded || n in frontier)
    && (forall n :: n in expanded ==> depth > 0 && Within(out, far, root, n, depth - 1))
    && (forall n :: n in frontier ==> Within(out, far, root, n, depth)
                                      && (depth > 0 ==> !Within(out, far, root, n, depth - 1)))
  }

  lemma ProgressNext<N(!new), E>(out: N -> seq<E>, far: E -> N, root: N, depth: nat, nodes: seq<N>, expanded: seq<N>,
                                 frontier: seq<N>, sorted: seq<N>, next: seq<N>)
    requires Progressed(out, far, root, depth, nodes, expanded, frontier)
    requires forall n :: n in sorted <==> n in frontier
    requires forall n :: n in next ==> exists m :: m in sorted && Links(out, far, m, n)
    requires forall n :: n in next ==> !Within(out, far, root, n, depth)
    ensures Progressed(out, far, root, depth + 1, nodes + next, expanded + sorted, next)
  {
    hide Within, Links;
    forall n | n in next ensures Within(out, far, root, n, depth + 1) {
      var m :| m in sorted && Links(out, far, m, n);
      WithinExtends(out, far, root, m, n, depth);
    }
    forall n | n in expanded ensures Within(out, far, root, n, depth) { WithinGrows(out, far, root, n, depth - 1); }
  }

  /** The nodes whose edges the clamp lets the walk follow: those nearer than it. */
  ghost predicate Inner<N(!new), E>(out: N -> seq<E>, far: E -> N, root: N, clamp: nat, n: N) {
    clamp > 0 && Within(out, far, root, n, clamp - 1)
  }

  /** Recorded are exactly the edges from listed nodes nearer than the clamp to listed nodes, cut or not. */
  ghost predicate EdgesFollowed<N(!new), E(!new)>(out: N -> seq<E>, far: E -> N, root: N, clamp: nat, nodes: seq<N>,
                                                  edges: seq<E>) {
    forall e :: e in edges <==>
      far(e) in nodes && exists m :: m in nodes && Inner(out, far, root, clamp, m) && e in out(m)
  }

  lemma ProgressEnds<N(!new), E(!new)>(out: N -> seq<E>, far: E -> N, root: N, depth: nat, clamp: nat, nodes: seq<N>,
                                       edges: seq<E>, expanded: seq<N>, frontier: seq<N>, truncated: bool)
    requires Progressed(out, far, root, depth, nodes, expanded, frontier)
    requires depth <= clamp && (depth == clamp || frontier == [])
    requires Kept(far, EdgesOf(out, expanded), nodes, edges, truncated)
    ensures EdgesFollowed(out, far, root, clamp, nodes, edges)
  {
    hide Within, EdgesOf;
    forall n | n in nodes ensures n in expanded <==> Inner(out, far, root, clamp, n) {
      if n in expanded { WithinGrowsTo(out, far, root, n, depth - 1, clamp - 1); }
    }
    forall e ensures e in edges <==>
        far(e) in nodes && exists m :: m in nodes && Inner(out, far, root, clamp, m) && e in out(m) {
      EdgesOfMembers(out, expanded, e);
    }
  }

  lemma StartsKept<N(!new), E(!new)>(out: N -> seq<E>, far: E -> N, root: N)
    ensures Kept(far, EdgesOf(out, []), [root], [], false)
    ensures Progressed(out, far, root, 0, [root], [], [root])
  {
    WithinZero(out, far, root, root);
  }

  lemma RecordedVia<N(!new), E(!new)>(out: N -> seq<E>, far: E -> N, root: N, cap: nat, full: seq<E>,
                                      nodes: seq<N>, via: map<N, E>, edges: seq<E>, cut: bool)
    requires Recorded(out, far, root, cap, full, full, nodes, via, edges, cut)
    ensures Discovered(far, root, full, nodes, via)
  {
  }

  lemma RecordedNodes<N(!new), E(!new)>(out: N -> seq<E>, far: E -> N, root: N, cap: nat, full: seq<E>, done: seq<E>,
                                        nodes: seq<N>, via: map<N, E>, edges: seq<E>, truncated: bool)
    requires Recorded(out, far, root, cap, full, done, nodes, via, edges, truncated)
    ensures nodes <= Nodes(far, root, full)
  {
  }

  lemma NewIsBeyond<N(!new), E(!new)>(out: N -> seq<E>, far: E -> N, le: (N, N) -> bool, root: N, cap: nat,
                                      full: seq<E>, depth: nat, nodes: seq<N>, next: seq<N>, n: N)
    requires nodes == Nodes(far, root, Walk(out, far, le, root, depth).trace)
    requires nodes + next <= Nodes(far, root, full) && n in next
    ensures !Within(out, far, root, n, depth)
  {
    NodeMembers(far, root, full, n);
    WalkIsBall(out, far, le, root, depth, n);
    var all := Nodes(far, root, full);
    hide Walk, Nodes, Within;
    var j :| 0 <= j < |next| && next[j] == n;
    assert all[|nodes| + j] == n;
    forall i | 0 <= i < |nodes| ensures nodes[i] != n { assert all[i] == nodes[i]; }
  }

  /**
   Explores from `root`. Uncut, the result is the whole walk to the clamp; cut by the cap, it is
   as many of the walk's nodes as fit, in the same order, and something they link to is missing.
   */
  method Explore<N(==, !new), E(==, !new)>(out: N -> seq<E>, far: E -> N, le: (N, N) -> bool, root: N, cap: nat,
                                           clamp: nat)
    returns (nodes: seq<N>, via: map<N, E>, edges: seq<E>, frontier: seq<N>, truncated: bool)
    requires cap > 0
    ensures Recorded(out, far, root, cap, Walk(out, far, le, root, clamp).trace, Walk(out, far, le, root, clamp).trace,
                     nodes, via, edges, truncated)
    ensures !truncated ==> frontier == Walk(out, far, le, root, clamp).level
    ensures root in nodes && EdgesFollowed(out, far, root, clamp, nodes, edges)
  {
    hide Recorded, Walk, Sort, EdgesOf, Nodes, Add, Kept, Progressed, EdgesFollowed, Within, Links;
    ghost var expanded: seq<N> := [];
    ghost var full := Walk(out, far, le, root, clamp).trace;
    nodes, via, edges, truncated := [root], map[], [], false;
    frontier := [root];
    WalkStart(out, far, le, root);
    Started(out, far, root, cap, full);
    StartsKept(out, far, root);
    var depth := 0;
    while depth < clamp && frontier != []
      invariant depth <= clamp && root in nodes && (forall n :: n in frontier ==> n in nodes)
      invariant Recorded(out, far, root, cap, full, Walk(out, far, le, root, depth).trace, nodes, via, edges, truncated)
      invariant !truncated ==> frontier == Walk(out, far, le, root, depth).level
      invariant Kept(far, EdgesOf(out, expanded), nodes, edges, truncated)
      invariant Progressed(out, far, root, depth, nodes, expanded, frontier)
      decreases clamp - depth
    {
      var sorted := Sort(frontier, le);
      SortPermutes(frontier, le);
      WalkGrows(out, far, le, root, depth + 1, clamp);
      WalkNext(out, far, le, root, depth);
      ghost var p, before := Walk(out, far, le, root, depth), nodes;
      ghost var front, wasCut := frontier, truncated;
      if !truncated { UncutNodes(out, far, root, cap, full, p.trace, nodes, via, edges); }
      EdgesOfAppend(out, expanded, sorted);
      nodes, via, edges, truncated, frontier :=
        ExpandLevel(out, far, root, cap, full, p.trace, sorted, nodes, via, edges, truncated, EdgesOf(out, expanded));
      RecordedNodes(out, far, root, cap, full, p.trace + EdgesOf(out, sorted), nodes, via, edges, truncated);
      forall n | n in frontier ensures !Within(out, far, root, n, depth) {
        if !wasCut { NewIsBeyond(out, far, le, root, cap, full, depth, before, frontier, n); }
      }
      ProgressNext(out, far, root, depth, before, expanded, front, sorted, frontier);
      expanded := expanded + sorted;
      if truncated {
        CutIgnoresDone(out, far, root, cap, full, p.trace + EdgesOf(out, sorted),
                       Walk(out, far, le, root, depth + 1).trace,
                       nodes, via, edges);
      } else {
        UncutNodes(out, far, root, cap, full, Walk(out, far, le, root, depth + 1).trace, nodes, via, edges);
        ShellIsSuffix(out, far, le, root, depth, before, nodes, frontier);
      }
      depth := depth + 1;
    }
    ProgressEnds(out, far, root, depth, clamp, nodes, edges, expanded, frontier, truncated);
    if truncated {
      CutIgnoresDone(out, far, root, cap, full, Walk(out, far, le, root, depth).trace, full, nodes, via, edges);
    } else if depth < clamp {
      WalkEnded(out, far, le, root, depth, clamp);
    }
  }
}
